/**
 * The data model shared by the snapshot builder and the comparison renderer:
 * the children of the live diagram's root container, and the snapshot
 * (node records and edge records) built from them.
 */
module Diagram {

  /** Stands for a JavaScript value that may be null or missing. */
  datatype Option<+T> = None | Some(value: T)

  /** An axis-aligned rectangle in diagram units (an mxGeometry). */
  datatype Rect = Rect(x: real, y: real, width: real, height: real)

  datatype Point = Point(x: real, y: real)

  /**
   * A child of the diagram's root container. A vertex carries its label,
   * its style string and its geometry, any of which the editing library
   * may leave unset; an edge refers to the cells it connects, either of
   * which may be absent (a dangling edge). Anything else the container
   * holds is `Other`.
   */
  datatype Cell =
    | Vertex(id: string, value: Option<string>, style: Option<string>, geometry: Option<Rect>)
    | Edge(id: string, value: Option<string>, source: Option<Cell>, target: Option<Cell>)
    | Other(id: string)

  /** A node of the snapshot: the vertex's fields, copied. */
  datatype NodeRecord = NodeRecord(id: string, value: Option<string>, style: Option<string>, geometry: Option<Rect>)

  /** An edge of the snapshot: its endpoints are reduced to their ids. */
  datatype EdgeRecord = EdgeRecord(id: string, source: Option<string>, target: Option<string>, value: Option<string>)

  /** The value held in `currentDiagramData`. */
  datatype Snapshot = Snapshot(nodes: seq<NodeRecord>, edges: seq<EdgeRecord>)

  /** Every node has a geometry (the renderer's node loop reads it unguarded). */
  predicate AllPlaced(nodes: seq<NodeRecord>)
  {
    forall k :: 0 <= k < |nodes| ==> nodes[k].geometry.Some?
  }

  /** Every vertex child has a geometry. */
  predicate CellsPlaced(cells: seq<Cell>)
  {
    forall j :: 0 <= j < |cells| && cells[j].Vertex? ==> cells[j].geometry.Some?
  }
}
