/**
 * The geometry of the comparison picture: the bounding box of the node
 * rectangles, the uniform scale that shrinks it into a 480 by 330 area, and
 * the offsets that centre it in the 500 by 350 canvas.
 */
module Layout {
  import opened Diagram

  const CanvasWidth: real := 500.0
  const CanvasHeight: real := 350.0
  /** The area the scaled diagram may use: the canvas less a margin. */
  const FitWidth: real := 480.0
  const FitHeight: real := 330.0

  /** The accumulators `minX`, `minY`, `maxX`, `maxY` once some node has been seen. */
  datatype Box = Box(minX: real, minY: real, maxX: real, maxY: real)

  /** `Math.min` and `Math.max` on finite numbers. */
  function Min(a: real, b: real): real { if a <= b then a else b }
  function Max(a: real, b: real): real { if a >= b then a else b }

  /**
   * One step of the bounds fold. `None` stands for the accumulators still at
   * their initial `Infinity` / `-Infinity`, which the first rectangle replaces
   * outright; a node without geometry is skipped.
   */
  function Extend(acc: Option<Box>, g: Option<Rect>): Option<Box>
  {
    match g
    case None => acc
    case Some(r) =>
      match acc
      case None => Some(Box(r.x, r.y, r.x + r.width, r.y + r.height))
      case Some(b) => Some(Box(Min(b.minX, r.x), Min(b.minY, r.y), Max(b.maxX, r.x + r.width), Max(b.maxY, r.y + r.height)))
  }

  /** The bounds after folding over `nodes`: defined exactly when some node has geometry. */
  function Bounds(nodes: seq<NodeRecord>): (r: Option<Box>)
    ensures r.None? <==> forall k :: 0 <= k < |nodes| ==> nodes[k].geometry.None?
  {
    if nodes == [] then None
    else Extend(Bounds(nodes[..|nodes| - 1]), nodes[|nodes| - 1].geometry)
  }

  /** The `forEach` that computes the bounds. */
  method ComputeBounds(nodes: seq<NodeRecord>) returns (bounds: Option<Box>)
    ensures bounds == Bounds(nodes)
  {
    var seen := false;
    var minX, minY, maxX, maxY := 0.0, 0.0, 0.0, 0.0;
    var i := 0;
    while i < |nodes|
      invariant 0 <= i <= |nodes|
      invariant Bounds(nodes[..i]) == if seen then Some(Box(minX, minY, maxX, maxY)) else None
    {
      var g := nodes[i].geometry;
      if g.Some? {
        var r := g.value;
        if !seen {
          minX, minY, maxX, maxY := r.x, r.y, r.x + r.width, r.y + r.height;
          seen := true;
        } else {
          minX := Min(minX, r.x);
          minY := Min(minY, r.y);
          maxX := Max(maxX, r.x + r.width);
          maxY := Max(maxY, r.y + r.height);
        }
      }
      assert nodes[..i + 1][..i] == nodes[..i];
      i := i + 1;
    }
    assert nodes[..i] == nodes;
    bounds := if seen then Some(Box(minX, minY, maxX, maxY)) else None;
  }

  predicate Encloses(b: Box, g: Rect)
  {
    b.minX <= g.x && g.x + g.width <= b.maxX && b.minY <= g.y && g.y + g.height <= b.maxY
  }

  /** The bounds enclose every node rectangle. */
  lemma {:induction false} BoundsEnclose(nodes: seq<NodeRecord>, k: int)
    requires 0 <= k < |nodes| && nodes[k].geometry.Some?
    ensures Bounds(nodes).Some? && Encloses(Bounds(nodes).value, nodes[k].geometry.value)
  {
    var n := |nodes| - 1;
    if k < n {
      assert nodes[..n][k] == nodes[k];
      BoundsEnclose(nodes[..n], k);
    }
  }

  /** Each bound is an edge of some node rectangle. */
  lemma {:induction false} BoundsAttained(nodes: seq<NodeRecord>)
    requires Bounds(nodes).Some?
    ensures var b := Bounds(nodes).value;
      && (exists k :: 0 <= k < |nodes| && nodes[k].geometry.Some? && nodes[k].geometry.value.x == b.minX)
      && (exists k :: 0 <= k < |nodes| && nodes[k].geometry.Some? && nodes[k].geometry.value.y == b.minY)
      && (exists k :: 0 <= k < |nodes| && nodes[k].geometry.Some? && nodes[k].geometry.value.x + nodes[k].geometry.value.width == b.maxX)
      && (exists k :: 0 <= k < |nodes| && nodes[k].geometry.Some? && nodes[k].geometry.value.y + nodes[k].geometry.value.height == b.maxY)
  {
    var n := |nodes| - 1;
    var init := nodes[..n];
    var last := nodes[n];
    if last.geometry.None? || Bounds(init).None? {
      if last.geometry.None? {
        BoundsAttained(init);
        var b := Bounds(init).value;
        var k1 :| 0 <= k1 < |init| && init[k1].geometry.Some? && init[k1].geometry.value.x == b.minX;
        var k2 :| 0 <= k2 < |init| && init[k2].geometry.Some? && init[k2].geometry.value.y == b.minY;
        var k3 :| 0 <= k3 < |init| && init[k3].geometry.Some? && init[k3].geometry.value.x + init[k3].geometry.value.width == b.maxX;
        var k4 :| 0 <= k4 < |init| && init[k4].geometry.Some? && init[k4].geometry.value.y + init[k4].geometry.value.height == b.maxY;
        assert nodes[k1] == init[k1] && nodes[k2] == init[k2] && nodes[k3] == init[k3] && nodes[k4] == init[k4];
      } else {
        assert nodes[n] == last;
      }
    } else {
      BoundsAttained(init);
      var b := Bounds(init).value;
      var r := last.geometry.value;
      var k1 :| 0 <= k1 < |init| && init[k1].geometry.Some? && init[k1].geometry.value.x == b.minX;
      var k2 :| 0 <= k2 < |init| && init[k2].geometry.Some? && init[k2].geometry.value.y == b.minY;
      var k3 :| 0 <= k3 < |init| && init[k3].geometry.Some? && init[k3].geometry.value.x + init[k3].geometry.value.width == b.maxX;
      var k4 :| 0 <= k4 < |init| && init[k4].geometry.Some? && init[k4].geometry.value.y + init[k4].geometry.value.height == b.maxY;
      assert nodes[k1] == init[k1] && nodes[k2] == init[k2] && nodes[k3] == init[k3] && nodes[k4] == init[k4];
      assert nodes[n] == last;
      var j1 := if b.minX <= r.x then k1 else n;
      var j2 := if b.minY <= r.y then k2 else n;
      var j3 := if b.maxX >= r.x + r.width then k3 else n;
      var j4 := if b.maxY >= r.y + r.height then k4 else n;
      var nb := Bounds(nodes).value;
      assert nodes[j1].geometry.Some? && nodes[j1].geometry.value.x == nb.minX;
      assert nodes[j2].geometry.Some? && nodes[j2].geometry.value.y == nb.minY;
      assert nodes[j3].geometry.Some? && nodes[j3].geometry.value.x + nodes[j3].geometry.value.width == nb.maxX;
      assert nodes[j4].geometry.Some? && nodes[j4].geometry.value.y + nodes[j4].geometry.value.height == nb.maxY;
    }
  }

  /**
   * `Math.min(480 / width, 330 / height, 1)`. Dividing by a zero extent gives
   * `Infinity`, which never wins the minimum, so that axis is skipped.
   */
  function Scale(width: real, height: real): (s: real)
    ensures s <= 1.0
    ensures width != 0.0 ==> s <= FitWidth / width
    ensures height != 0.0 ==> s <= FitHeight / height
    ensures s == 1.0 || (width != 0.0 && s == FitWidth / width) || (height != 0.0 && s == FitHeight / height)
  {
    var sx := if width != 0.0 then Min(FitWidth / width, 1.0) else 1.0;
    if height != 0.0 then Min(FitHeight / height, sx) else sx
  }

  /** For a box of non-negative extent the scale is positive and the scaled box fits the usable area. */
  lemma ScaleFits(width: real, height: real)
    requires width >= 0.0 && height >= 0.0
    ensures 0.0 < Scale(width, height)
    ensures width * Scale(width, height) <= FitWidth
    ensures height * Scale(width, height) <= FitHeight
  {
    var s := Scale(width, height);
    if width > 0.0 {
      assert s <= FitWidth / width;
      assert width * s <= width * (FitWidth / width);
    }
    if height > 0.0 {
      assert s <= FitHeight / height;
      assert height * s <= height * (FitHeight / height);
    }
  }

  /** A diagram that already fits is drawn at its own size: the scale never enlarges and only shrinks when needed. */
  lemma ScaleKeepsWhatFits(width: real, height: real)
    requires 0.0 <= width <= FitWidth && 0.0 <= height <= FitHeight
    ensures Scale(width, height) == 1.0
  {
    if width > 0.0 {
      assert FitWidth / width >= 1.0;
    }
    if height > 0.0 {
      assert FitHeight / height >= 1.0;
    }
  }

  /** Diagram coordinates `c` are drawn at `c * scale + offset`. */
  datatype Transform = Transform(scale: real, dx: real, dy: real)

  /** The scale and the offsets `offsetX`, `offsetY` for a diagram with bounds `b`. */
  function Fit(b: Box): Transform
  {
    var width := b.maxX - b.minX;
    var height := b.maxY - b.minY;
    var s := Scale(width, height);
    Transform(s, (CanvasWidth - width * s) / 2.0 - b.minX * s, (CanvasHeight - height * s) / 2.0 - b.minY * s)
  }

  /** A node rectangle in canvas coordinates. */
  function Place(t: Transform, g: Rect): Rect
  {
    Rect(g.x * t.scale + t.dx, g.y * t.scale + t.dy, g.width * t.scale, g.height * t.scale)
  }

  function Centre(r: Rect): Point
  {
    Point(r.x + r.width / 2.0, r.y + r.height / 2.0)
  }

  /**
   * An edge's end at a node, computed as the edge loop does (the node's centre
   * in diagram units, then transformed): it is the centre of the rectangle the
   * node loop draws for that node.
   */
  function Anchor(t: Transform, g: Rect): (p: Point)
    ensures p == Centre(Place(t, g))
  {
    CentreOfPlace(t, g);
    Point((g.x + g.width / 2.0) * t.scale + t.dx, (g.y + g.height / 2.0) * t.scale + t.dy)
  }

  /** The centre of a placed rectangle, written as the transformed centre of the original. */
  lemma CentreOfPlace(t: Transform, g: Rect)
    ensures Centre(Place(t, g)) == Point((g.x + g.width / 2.0) * t.scale + t.dx, (g.y + g.height / 2.0) * t.scale + t.dy)
  {
    var c := Centre(Place(t, g));
    assert c.x == (g.x * t.scale + t.dx) + (g.width * t.scale) / 2.0;
    assert c.y == (g.y * t.scale + t.dy) + (g.height * t.scale) / 2.0;
    ScaleCentre(g.x, g.width, t.scale);
    ScaleCentre(g.y, g.height, t.scale);
  }

  /** Scaling a centre is the same as taking the centre of the scaled extent. */
  lemma ScaleCentre(lo: real, size: real, scale: real)
    ensures (lo + size / 2.0) * scale == lo * scale + (size * scale) / 2.0
  {
    assert (lo + size / 2.0) * scale == lo * scale + (size / 2.0) * scale;
    assert (size / 2.0) * scale == (size * scale) / 2.0;
  }

  predicate PointInCanvas(p: Point)
  {
    0.0 <= p.x <= CanvasWidth && 0.0 <= p.y <= CanvasHeight
  }

  predicate RectInCanvas(r: Rect)
  {
    0.0 <= r.width && 0.0 <= r.height && 0.0 <= r.x && r.x + r.width <= CanvasWidth && 0.0 <= r.y && r.y + r.height <= CanvasHeight
  }

  /** The scaled bounds sit in the middle of the canvas: equal margins left and right, top and bottom, each at least 10. */
  lemma FitCentres(b: Box)
    requires b.minX <= b.maxX && b.minY <= b.maxY
    ensures var t := Fit(b);
      && b.minX * t.scale + t.dx == CanvasWidth - (b.maxX * t.scale + t.dx)
      && b.minY * t.scale + t.dy == CanvasHeight - (b.maxY * t.scale + t.dy)
      && b.minX * t.scale + t.dx >= (CanvasWidth - FitWidth) / 2.0
      && b.minY * t.scale + t.dy >= (CanvasHeight - FitHeight) / 2.0
  {
    var width := b.maxX - b.minX;
    var height := b.maxY - b.minY;
    var s := Scale(width, height);
    ScaleFits(width, height);
    assert b.maxX * s - b.minX * s == width * s;
    assert b.maxY * s - b.minY * s == height * s;
  }

  /** A rectangle within the bounds, of non-negative size, is drawn inside the canvas. */
  lemma PlacedInCanvas(b: Box, g: Rect)
    requires Encloses(b, g) && 0.0 <= g.width && 0.0 <= g.height
    ensures RectInCanvas(Place(Fit(b), g))
  {
    var t := Fit(b);
    assert 0.0 < t.scale
        && b.minX * t.scale + t.dx == CanvasWidth - (b.maxX * t.scale + t.dx) && 0.0 <= b.minX * t.scale + t.dx
        && b.minY * t.scale + t.dy == CanvasHeight - (b.maxY * t.scale + t.dy) && 0.0 <= b.minY * t.scale + t.dy by {
      FitCentres(b);
      ScaleFits(b.maxX - b.minX, b.maxY - b.minY);
    }
    CentredInCanvas(b, g, t);
  }

  /** `PlacedInCanvas` for any positive transform that centres the bounds with non-negative margins. */
  lemma CentredInCanvas(b: Box, g: Rect, t: Transform)
    requires Encloses(b, g) && 0.0 <= g.width && 0.0 <= g.height && 0.0 < t.scale
    requires b.minX * t.scale + t.dx == CanvasWidth - (b.maxX * t.scale + t.dx) && 0.0 <= b.minX * t.scale + t.dx
    requires b.minY * t.scale + t.dy == CanvasHeight - (b.maxY * t.scale + t.dy) && 0.0 <= b.minY * t.scale + t.dy
    ensures RectInCanvas(Place(t, g))
  {
    AxisInCanvas(b.minX, b.maxX, g.x, g.width, t.scale, t.dx, CanvasWidth);
    AxisInCanvas(b.minY, b.maxY, g.y, g.height, t.scale, t.dy, CanvasHeight);
  }

  /**
   * One axis of `PlacedInCanvas`: an interval within [lo, hi], scaled by a
   * positive factor and shifted so that [lo, hi] has equal non-negative
   * margins in [0, size], lands within [0, size].
   */
  lemma AxisInCanvas(lo: real, hi: real, x: real, w: real, s: real, d: real, size: real)
    requires lo <= x && x + w <= hi && 0.0 <= w && 0.0 < s
    requires lo * s + d == size - (hi * s + d) && 0.0 <= lo * s + d
    ensures 0.0 <= w * s && 0.0 <= x * s + d && x * s + d + w * s <= size
  {
    assert lo * s <= x * s;
    assert (x + w) * s <= hi * s;
    assert x * s + w * s == (x + w) * s;
  }

  /** The centre of a rectangle drawn inside the canvas is inside it too. */
  lemma CentreInCanvas(r: Rect)
    requires RectInCanvas(r)
    ensures PointInCanvas(Centre(r))
  {
  }
}
