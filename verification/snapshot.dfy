/**
 * The snapshot builder (`updateDiagramData`): one pass over the children of
 * the diagram's root container, in order, turning each vertex into a node
 * record and each edge into an edge record and dropping everything else.
 */
module SnapshotBuilder {
  import opened Diagram

  /** A vertex's record: its id, label, style and geometry, copied. */
  function NodeOf(c: Cell): NodeRecord
    requires c.Vertex?
  {
    NodeRecord(c.id, c.value, c.style, c.geometry)
  }

  /** `cell.source ? cell.source.getId() : null` */
  function EndpointId(end: Option<Cell>): Option<string>
  {
    match end
    case None => None
    case Some(c) => Some(c.id)
  }

  /** An edge's record: its id, its endpoints' ids and its label. */
  function EdgeOf(c: Cell): EdgeRecord
    requires c.Edge?
  {
    EdgeRecord(c.id, EndpointId(c.source), EndpointId(c.target), c.value)
  }

  /** The node records the loop has pushed after visiting `cells`. */
  function NodeRecords(cells: seq<Cell>): (r: seq<NodeRecord>)
    ensures |r| <= |cells|
  {
    if cells == [] then []
    else
      var last := cells[|cells| - 1];
      NodeRecords(cells[..|cells| - 1]) + if last.Vertex? then [NodeOf(last)] else []
  }

  /** The edge records the loop has pushed after visiting `cells`. */
  function EdgeRecords(cells: seq<Cell>): (r: seq<EdgeRecord>)
    ensures |r| <= |cells|
  {
    if cells == [] then []
    else
      var last := cells[|cells| - 1];
      EdgeRecords(cells[..|cells| - 1]) + if last.Edge? then [EdgeOf(last)] else []
  }

  function SnapshotOf(cells: seq<Cell>): Snapshot
  {
    Snapshot(NodeRecords(cells), EdgeRecords(cells))
  }

  /** The loop of `updateDiagramData`, returning the value it assigns to `currentDiagramData`. */
  method CollectRecords(children: seq<Cell>) returns (snapshot: Snapshot)
    ensures snapshot == SnapshotOf(children)
  {
    var nodes: seq<NodeRecord> := [];
    var edges: seq<EdgeRecord> := [];
    var i := 0;
    while i < |children|
      invariant 0 <= i <= |children|
      invariant nodes == NodeRecords(children[..i])
      invariant edges == EdgeRecords(children[..i])
    {
      var cell := children[i];
      if cell.Vertex? {
        nodes := nodes + [NodeRecord(cell.id, cell.value, cell.style, cell.geometry)];
      } else if cell.Edge? {
        var source := if cell.source.Some? then Some(cell.source.value.id) else None;
        var target := if cell.target.Some? then Some(cell.target.value.id) else None;
        edges := edges + [EdgeRecord(cell.id, source, target, cell.value)];
      }
      assert children[..i + 1][..i] == children[..i];
      i := i + 1;
    }
    assert children[..i] == children;
    snapshot := Snapshot(nodes, edges);
  }

  // ---------------------------------------------------------------------------
  // Properties of the snapshot
  // ---------------------------------------------------------------------------

  /** Visiting `a` then `b` pushes the records of `a`, then those of `b`. */
  lemma {:induction false} NodeRecordsAppend(a: seq<Cell>, b: seq<Cell>)
    ensures NodeRecords(a + b) == NodeRecords(a) + NodeRecords(b)
    decreases |b|
  {
    if b == [] {
      assert a + b == a;
    } else {
      var b' := b[..|b| - 1];
      assert (a + b)[..|a + b| - 1] == a + b';
      assert (a + b)[|a + b| - 1] == b[|b| - 1];
      NodeRecordsAppend(a, b');
    }
  }

  lemma {:induction false} EdgeRecordsAppend(a: seq<Cell>, b: seq<Cell>)
    ensures EdgeRecords(a + b) == EdgeRecords(a) + EdgeRecords(b)
    decreases |b|
  {
    if b == [] {
      assert a + b == a;
    } else {
      var b' := b[..|b| - 1];
      assert (a + b)[..|a + b| - 1] == a + b';
      assert (a + b)[|a + b| - 1] == b[|b| - 1];
      EdgeRecordsAppend(a, b');
    }
  }

  /**
   * The vertex at child index `j` has its record at index k, the number of
   * vertices before it; vertices later in the child list get later records.
   */
  lemma NodeRecordAt(cells: seq<Cell>, j: int)
    requires 0 <= j < |cells| && cells[j].Vertex?
    ensures NodeRecords(cells[..j + 1]) == NodeRecords(cells[..j]) + [NodeOf(cells[j])]
    ensures NodeRecords(cells[..j + 1]) <= NodeRecords(cells)
    ensures |NodeRecords(cells[..j])| < |NodeRecords(cells)|
    ensures NodeRecords(cells)[|NodeRecords(cells[..j])|] == NodeOf(cells[j])
  {
    assert cells[..j + 1][..j] == cells[..j];
    NodeRecordsAppend(cells[..j + 1], cells[j + 1..]);
    assert cells[..j + 1] + cells[j + 1..] == cells;
  }

  lemma EdgeRecordAt(cells: seq<Cell>, j: int)
    requires 0 <= j < |cells| && cells[j].Edge?
    ensures EdgeRecords(cells[..j + 1]) == EdgeRecords(cells[..j]) + [EdgeOf(cells[j])]
    ensures EdgeRecords(cells[..j + 1]) <= EdgeRecords(cells)
    ensures |EdgeRecords(cells[..j])| < |EdgeRecords(cells)|
    ensures EdgeRecords(cells)[|EdgeRecords(cells[..j])|] == EdgeOf(cells[j])
  {
    assert cells[..j + 1][..j] == cells[..j];
    EdgeRecordsAppend(cells[..j + 1], cells[j + 1..]);
    assert cells[..j + 1] + cells[j + 1..] == cells;
  }

  /** Every node record is the copy of some vertex child, at the position that vertex's rank gives. */
  lemma {:induction false} NodeRecordOrigin(cells: seq<Cell>, k: int)
    requires 0 <= k < |NodeRecords(cells)|
    ensures exists j :: 0 <= j < |cells| && cells[j].Vertex? && |NodeRecords(cells[..j])| == k
                        && NodeRecords(cells)[k] == NodeRecord(cells[j].id, cells[j].value, cells[j].style, cells[j].geometry)
  {
    var n := |cells| - 1;
    var init := cells[..n];
    if k < |NodeRecords(init)| {
      NodeRecordOrigin(init, k);
      var j :| 0 <= j < |init| && init[j].Vertex? && |NodeRecords(init[..j])| == k
                && NodeRecords(init)[k] == NodeOf(init[j]);
      assert init[..j] == cells[..j];
      assert cells[j] == init[j];
      assert NodeRecords(cells)[k] == NodeRecords(init)[k];
      assert |NodeRecords(cells[..j])| == k;
      assert NodeRecords(cells)[k] == NodeOf(cells[j]);
    } else {
      assert cells[..n] == init;
    }
  }

  /**
   * Every edge record is the copy of some edge child at the position its rank
   * gives; its endpoints are the ids of the edge's source and target cells,
   * or null exactly when that endpoint is missing.
   */
  lemma {:induction false} EdgeRecordOrigin(cells: seq<Cell>, k: int)
    requires 0 <= k < |EdgeRecords(cells)|
    ensures exists j :: 0 <= j < |cells| && cells[j].Edge? && |EdgeRecords(cells[..j])| == k
                        && EdgeRecords(cells)[k].id == cells[j].id
                        && EdgeRecords(cells)[k].value == cells[j].value
                        && (EdgeRecords(cells)[k].source.Some? <==> cells[j].source.Some?)
                        && (cells[j].source.Some? ==> EdgeRecords(cells)[k].source.value == cells[j].source.value.id)
                        && (EdgeRecords(cells)[k].target.Some? <==> cells[j].target.Some?)
                        && (cells[j].target.Some? ==> EdgeRecords(cells)[k].target.value == cells[j].target.value.id)
  {
    var n := |cells| - 1;
    var init := cells[..n];
    if k < |EdgeRecords(init)| {
      EdgeRecordOrigin(init, k);
      var j :| 0 <= j < |init| && init[j].Edge? && |EdgeRecords(init[..j])| == k
                && EdgeRecords(init)[k] == EdgeOf(init[j]);
      assert init[..j] == cells[..j];
      assert cells[j] == init[j];
      assert EdgeRecords(cells)[k] == EdgeRecords(init)[k];
      assert |EdgeRecords(cells[..j])| == k;
      assert EdgeRecords(cells)[k] == EdgeOf(cells[j]);
    } else {
      assert cells[..n] == init;
    }
  }

  /**
   * Each child yields at most one record, and the records account for every
   * child exactly when no child is neither a vertex nor an edge.
   */
  lemma {:induction false} SnapshotSize(cells: seq<Cell>)
    ensures |NodeRecords(cells)| + |EdgeRecords(cells)| <= |cells|
    ensures |NodeRecords(cells)| + |EdgeRecords(cells)| == |cells| <==> forall j :: 0 <= j < |cells| ==> !cells[j].Other?
  {
    if cells != [] {
      var init := cells[..|cells| - 1];
      SnapshotSize(init);
      if forall j :: 0 <= j < |init| ==> !init[j].Other? {
        if !cells[|cells| - 1].Other? {
          forall j | 0 <= j < |cells| ensures !cells[j].Other? {
            if j < |init| { assert cells[j] == init[j]; }
          }
        }
      } else {
        var j :| 0 <= j < |init| && init[j].Other?;
        assert cells[j] == init[j];
      }
    }
  }

  /** A snapshot of a graph whose vertices all have geometry has only placed nodes. */
  lemma SnapshotPlaced(cells: seq<Cell>)
    requires CellsPlaced(cells)
    ensures AllPlaced(NodeRecords(cells))
  {
    forall k | 0 <= k < |NodeRecords(cells)|
      ensures NodeRecords(cells)[k].geometry.Some?
    {
      NodeRecordOrigin(cells, k);
    }
  }

  /** Adding one vertex at the end of the child list adds its record at the end of the nodes and leaves the edges alone. */
  lemma AppendVertex(cells: seq<Cell>, v: Cell)
    requires v.Vertex?
    ensures SnapshotOf(cells + [v]) == Snapshot(SnapshotOf(cells).nodes + [NodeOf(v)], SnapshotOf(cells).edges)
  {
    assert (cells + [v])[..|cells|] == cells;
  }
}
