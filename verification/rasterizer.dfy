/** `create_mask_from_polygons`: which shapes of a record are painted onto
    the black canvas, in which order and in which palette colour. The pixel
    work of the imaging library is replaced by the list of polygon draw
    commands the script issues. */
module Rasterizer {
  import opened Annotation
  import opened Seqs

  datatype Color = Color(r: nat, g: nat, b: nat)

  const Black: Color := Color(0, 0, 0)
  const White: Color := Color(255, 255, 255)

  /** The six fill colours, cycled by shape index. */
  const Palette: seq<Color> := [
    Color(255, 0, 0), Color(0, 255, 0), Color(0, 0, 255),
    Color(255, 255, 0), Color(255, 0, 255), Color(0, 255, 255)
  ]

  /** The default canvas size, `image_size=(1024, 1024)`. */
  const DefaultWidth: nat := 1024
  const DefaultHeight: nat := 1024

  datatype IntPoint = IntPoint(x: int, y: int)

  /** One `draw.polygon(points, fill=..., outline=...)` call. */
  datatype DrawCmd = DrawPolygon(points: seq<IntPoint>, fill: Color, outline: Color)

  /** The canvas `Image.new('RGB', size, background)` plus the draw calls
      applied to it, in order (later commands paint over earlier ones). */
  datatype Mask = Mask(width: nat, height: nat, background: Color, cmds: seq<DrawCmd>)

  /** What the loop raises on: a shape without `shape_type` (KeyError), or a
      polygon without `points` (KeyError). `index` is the shape's position. */
  datatype RenderError = MissingShapeType(index: nat) | MissingPoints(index: nat)
  {
    function Index(): nat {
      match this
      case MissingShapeType(i) => i
      case MissingPoints(i) => i
    }
  }

  /** Python's `int(x)` on a number: truncation toward zero. */
  function Trunc(x: real): (n: int)
    ensures 0.0 <= x ==> 0 <= n && n as real <= x < n as real + 1.0
    ensures x < 0.0 ==> n <= 0 && n as real - 1.0 < x <= n as real
  {
    if x >= 0.0 then x.Floor else -((-x).Floor)
  }

  /** Truncation is symmetric about zero, unlike flooring. */
  lemma TruncOdd(x: real)
    ensures Trunc(-x) == -Trunc(x)
  {
    if x == 0.0 {
    } else if x > 0.0 {
      assert -(-x) == x;
    }
  }

  /** `[(int(x), int(y)) for x, y in points]`. */
  function ToIntPoints(ps: seq<Point>): (qs: seq<IntPoint>)
    ensures |qs| == |ps|
    ensures forall j :: 0 <= j < |ps| ==> qs[j] == IntPoint(Trunc(ps[j].x), Trunc(ps[j].y))
  {
    Map((p: Point) => IntPoint(Trunc(p.x), Trunc(p.y)), ps)
  }

  /** `colors[i % len(colors)]`. */
  function ColorFor(i: nat): (c: Color)
    ensures c in Palette
  {
    Palette[i % |Palette|]
  }

  /** The first six shapes take the palette in order, and from then on the
      colours repeat with period six. */
  lemma ColorForCycles(i: nat)
    ensures i < 6 ==> ColorFor(i) == Palette[i]
    ensures ColorFor(i + 6) == ColorFor(i)
  {
  }

  /** The shape makes the loop raise. */
  predicate ShapeError(s: Shape) {
    s.shapeType.None? || (s.shapeType == Some(PolygonTag) && s.points.None?)
  }

  /** The shape is painted: a polygon with at least three points. */
  predicate Qualifies(s: Shape) {
    s.shapeType == Some(PolygonTag) && s.points.Some? && |s.points.value| >= 3
  }

  /** `Qualifies` on an `enumerate` entry. */
  predicate EntryQualifies(e: (nat, Shape)) {
    Qualifies(e.1)
  }

  function PointsOf(s: Shape): seq<Point> {
    match s.points
    case None => []
    case Some(ps) => ps
  }

  /** The draw call issued for the shape at position `k`. */
  function CmdFor(entry: (nat, Shape)): DrawCmd {
    DrawPolygon(ToIntPoints(PointsOf(entry.1)), ColorFor(entry.0), White)
  }

  /** Reference definition of the painted shapes, as a comprehension:
      `[cmd(i, s) for i, s in enumerate(shapes) if qualifies(s)]`. */
  function ReferenceCmds(shapes: seq<Shape>): seq<DrawCmd> {
    Map(CmdFor, Filter(EntryQualifies, Enumerate(shapes)))
  }

  /** The script's loop from shape `i` on, step by step: read the tag, read
      and convert the points of a polygon, pick the colour by the running
      index, draw only when there are at least three points. */
  function DrawFrom(shapes: seq<Shape>, i: nat): (r: Result<seq<DrawCmd>, RenderError>)
    requires i <= |shapes|
    ensures r.Err? <==> exists k :: i <= k < |shapes| && ShapeError(shapes[k])
    ensures r.Err? ==> i <= r.error.Index() < |shapes| && ShapeError(shapes[r.error.Index()])
    ensures r.Err? ==> forall k :: i <= k < r.error.Index() ==> !ShapeError(shapes[k])
    ensures r.Err? ==> (r.error.MissingShapeType? <==> shapes[r.error.Index()].shapeType.None?)
    ensures r.Ok? ==> |r.value| <= |shapes| - i
    ensures r.Ok? ==> forall c :: c in r.value ==>
      c.outline == White && |c.points| >= 3 && c.fill in Palette
    decreases |shapes| - i
  {
    if i == |shapes| then Ok([])
    else
      var s := shapes[i];
      if s.shapeType.None? then Err(MissingShapeType(i))
      else if s.shapeType.value == PolygonTag then
        if s.points.None? then Err(MissingPoints(i))
        else
          var points := ToIntPoints(s.points.value);
          var color := ColorFor(i);
          var rest := DrawFrom(shapes, i + 1);
          if rest.Err? then rest
          else if |points| >= 3 then Ok([DrawPolygon(points, color, White)] + rest.value)
          else rest
      else DrawFrom(shapes, i + 1)
  }

  /** `create_mask_from_polygons(mask_data, image_size)`. */
  function Render(rec: Record, width: nat, height: nat): (r: Result<Mask, RenderError>)
    ensures |ShapesOf(rec)| == 0 ==> r == Ok(Mask(width, height, Black, []))
    ensures r.Err? <==> exists k :: 0 <= k < |ShapesOf(rec)| && ShapeError(ShapesOf(rec)[k])
    ensures r.Ok? ==> r.value.width == width && r.value.height == height
    ensures r.Ok? ==> r.value.background == Black
    ensures r.Ok? ==> |r.value.cmds| <= BuildingCount(rec)
    ensures r.Ok? ==> forall c :: c in r.value.cmds ==> c.outline == White && |c.points| >= 3
  {
    match DrawFrom(ShapesOf(rec), 0)
    case Err(e) => Err(e)
    case Ok(cmds) => Ok(Mask(width, height, Black, cmds))
  }

  /** The loop agrees with the comprehension: one command per qualifying
      shape, in shape order, coloured by the shape's index among ALL shapes. */
  lemma {:induction false} DrawFromMatchesReference(shapes: seq<Shape>, i: nat)
    requires i <= |shapes|
    requires forall k :: i <= k < |shapes| ==> !ShapeError(shapes[k])
    ensures DrawFrom(shapes, i)
      == Ok(Map(CmdFor, Filter(EntryQualifies, Enumerate(shapes)[i..])))
    decreases |shapes| - i
  {
    var p := EntryQualifies;
    var tail := Enumerate(shapes)[i..];
    if i == |shapes| {
      assert tail == [];
    } else {
      DrawFromMatchesReference(shapes, i + 1);
      assert tail[0] == (i, shapes[i]);
      assert tail[1..] == Enumerate(shapes)[i + 1..];
      var head := if p(tail[0]) then [tail[0]] else [];
      assert Filter(p, tail) == head + Filter(p, tail[1..]);
      MapAppend(CmdFor, head, Filter(p, tail[1..]));
      if p(tail[0]) {
        assert Map(CmdFor, head) == [DrawPolygon(ToIntPoints(shapes[i].points.value), ColorFor(i), White)];
      } else {
        assert DrawFrom(shapes, i) == DrawFrom(shapes, i + 1);
        assert Filter(p, tail) == Filter(p, Enumerate(shapes)[i + 1..]);
      }
    }
  }

  /** Rendering succeeds exactly when no shape makes the loop raise, and then
      issues precisely the reference commands. */
  lemma RenderMatchesReference(rec: Record, width: nat, height: nat)
    requires forall k :: 0 <= k < |ShapesOf(rec)| ==> !ShapeError(ShapesOf(rec)[k])
    ensures Render(rec, width, height) == Ok(Mask(width, height, Black, ReferenceCmds(ShapesOf(rec))))
  {
    DrawFromMatchesReference(ShapesOf(rec), 0);
    assert Enumerate(ShapesOf(rec))[0..] == Enumerate(ShapesOf(rec));
  }

  /** Every painted shape has its command on the canvas, with fill
      `palette[k % 6]` for its index k and its points truncated in order. */
  lemma QualifyingShapeIsDrawn(rec: Record, width: nat, height: nat, k: nat)
    requires forall j :: 0 <= j < |ShapesOf(rec)| ==> !ShapeError(ShapesOf(rec)[j])
    requires k < |ShapesOf(rec)| && Qualifies(ShapesOf(rec)[k])
    ensures Render(rec, width, height).Ok?
    ensures DrawPolygon(ToIntPoints(ShapesOf(rec)[k].points.value), Palette[k % 6], White)
      in Render(rec, width, height).value.cmds
  {
    var shapes := ShapesOf(rec);
    RenderMatchesReference(rec, width, height);
    var p := EntryQualifies;
    var f := Filter(p, Enumerate(shapes));
    assert (k, shapes[k]) in Enumerate(shapes);
    assert (k, shapes[k]) in f;
    var j :| 0 <= j < |f| && f[j] == (k, shapes[k]);
    assert ReferenceCmds(shapes)[j] == CmdFor((k, shapes[k]));
  }

  /** Every command on the canvas comes from some painted shape k and is
      filled with `palette[k % 6]`. */
  lemma DrawnCommandHasQualifyingSource(rec: Record, width: nat, height: nat, c: DrawCmd)
    requires Render(rec, width, height).Ok?
    requires c in Render(rec, width, height).value.cmds
    ensures exists k :: 0 <= k < |ShapesOf(rec)| && Qualifies(ShapesOf(rec)[k]) &&
                        c == DrawPolygon(ToIntPoints(ShapesOf(rec)[k].points.value), Palette[k % 6], White)
  {
    var shapes := ShapesOf(rec);
    RenderMatchesReference(rec, width, height);
    var p := EntryQualifies;
    var f := Filter(p, Enumerate(shapes));
    var j :| 0 <= j < |f| && c == CmdFor(f[j]);
    assert f[j] in f;
    var k := f[j].0;
    assert f[j] in Enumerate(shapes);
    assert c == DrawPolygon(ToIntPoints(shapes[k].points.value), Palette[k % 6], White);
  }

  /** When every shape is a drawable polygon, command k belongs to shape k:
      same points in the same order, truncated, filled `palette[k % 6]`. */
  lemma AllPolygonsDrawnInOrder(rec: Record, width: nat, height: nat)
    requires forall k :: 0 <= k < |ShapesOf(rec)| ==> Qualifies(ShapesOf(rec)[k])
    ensures Render(rec, width, height).Ok?
    ensures |Render(rec, width, height).value.cmds| == |ShapesOf(rec)|
    ensures forall k :: 0 <= k < |ShapesOf(rec)| ==>
      var c := Render(rec, width, height).value.cmds[k];
      && c.fill == Palette[k % 6]
      && |c.points| == |PointsOf(ShapesOf(rec)[k])|
      && forall j :: 0 <= j < |c.points| ==>
           c.points[j] == IntPoint(Trunc(PointsOf(ShapesOf(rec)[k])[j].x),
                                   Trunc(PointsOf(ShapesOf(rec)[k])[j].y))
  {
    var shapes := ShapesOf(rec);
    RenderMatchesReference(rec, width, height);
    FilterAll(EntryQualifies, Enumerate(shapes));
  }

  /** Seven polygons: the seventh wraps round to the first palette colour. */
  lemma SeventhPolygonReusesFirstColor(tri: seq<Point>)
    requires |tri| == 3
    ensures var poly := Shape(Some(PolygonTag), Some(tri));
      var r := Render(Record(Some([poly, poly, poly, poly, poly, poly, poly])), DefaultWidth, DefaultHeight);
      r.Ok? && |r.value.cmds| == 7 && r.value.cmds[6].fill == Palette[0]
  {
    var poly := Shape(Some(PolygonTag), Some(tri));
    AllPolygonsDrawnInOrder(Record(Some([poly, poly, poly, poly, poly, poly, poly])), DefaultWidth, DefaultHeight);
  }

  /** A skipped shape still takes its palette slot: after a non-polygon, the
      first drawn polygon is green, not red. */
  lemma SkippedShapeConsumesPaletteSlot(tri: seq<Point>)
    requires |tri| == 3
    ensures var line := Shape(Some("linestrip"), Some(tri));
      var poly := Shape(Some(PolygonTag), Some(tri));
      Render(Record(Some([line, poly])), DefaultWidth, DefaultHeight)
        == Ok(Mask(DefaultWidth, DefaultHeight, Black, [DrawPolygon(ToIntPoints(tri), Palette[1], White)]))
  {
    var line := Shape(Some("linestrip"), Some(tri));
    var poly := Shape(Some(PolygonTag), Some(tri));
    var shapes := [line, poly];
    assert shapes[1] == poly && shapes[0] == line;
    assert |ToIntPoints(tri)| == 3;
    assert DrawFrom(shapes, 2) == Ok([]);
    assert poly.shapeType.value == PolygonTag;
    assert ColorFor(1) == Palette[1];
    assert [DrawPolygon(ToIntPoints(tri), Palette[1], White)] + [] == [DrawPolygon(ToIntPoints(tri), Palette[1], White)];
    assert DrawFrom(shapes, 1) == Ok([DrawPolygon(ToIntPoints(tri), Palette[1], White)]);
  }
}
