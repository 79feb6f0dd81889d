/**
 * The viewer-side scene: egui's paint shapes, colours and strokes, the
 * hover regions attached to labelled elements, and a paint frame (the
 * elements plus the canvas rectangle they were authored in).
 */
module Paint {
  import opened Wrappers
  import opened Geometry
  import Scene

  /** egui's `Color32`: red, green, blue and alpha bytes. */
  datatype Color32 = Color32(r: Scene.Byte, g: Scene.Byte, b: Scene.Byte, a: Scene.Byte)

  /** `Color32::BLACK`. */
  const Black32: Color32 := Color32(0, 0, 0, 255)

  /** `Color32::TRANSPARENT`. */
  const Transparent: Color32 := Color32(0, 0, 0, 0)

  /** `Color32::from_rgb`: an opaque colour. */
  function FromRgb(c: Scene.Color): (k: Color32)
    ensures k.r == c.r && k.g == c.g && k.b == c.b && k.a == 255
  {
    Color32(c.r, c.g, c.b, 255)
  }

  /** egui's `Stroke`. */
  datatype PaintStroke = PaintStroke(width: real, color: Color32)

  /** `Stroke::NONE`, which is also egui's derived `Stroke::default()`. */
  const NoStroke: PaintStroke := PaintStroke(0.0, Transparent)

  /** The three egui shape kinds the viewer builds and draws. */
  datatype PaintShape =
    | PathShape(points: seq<Pos2>, closed: bool, fill: Color32, stroke: PaintStroke)
    | RectShape(rect: Rect, rounding: real, fill: Color32, stroke: PaintStroke)
    | CircleShape(center: Pos2, radius: real, fill: Color32, stroke: PaintStroke)

  /** `Shape::line`: an open, unfilled polyline. */
  function Line(points: seq<Pos2>, stroke: PaintStroke): (s: PaintShape)
    ensures s.PathShape? && s.points == points && !s.closed
    ensures s.fill == Transparent && s.stroke == stroke
  {
    PathShape(points, false, Transparent, stroke)
  }

  datatype TextItem = TextItem(text: string, pos: Pos2, size: real, color: Color32)

  datatype ElementKind = ShapeKind(shape: PaintShape) | TextKind(text: TextItem)

  /** The region in which the pointer shows an element's label. */
  datatype HoverCondition =
    | RectHover(rect: Rect)
    | PathHover(path: seq<Pos2>)
    | ClosedPathHover(path: seq<Pos2>)
    | CircleHover(center: Pos2, radius: real)

  datatype Hover = Hover(cond: HoverCondition, msg: string)

  datatype FrameElement = FrameElement(kind: ElementKind, hover: Option<Hover>)

  /** A frame ready to paint; `rect == None` stands for egui's `Rect::NOTHING`. */
  datatype PaintFrame = PaintFrame(elems: seq<FrameElement>, rect: Option<Rect>)

  /** `PaintFrame::default`: no elements and the `NOTHING` rectangle. */
  function DefaultFrame(): (f: PaintFrame)
    ensures f.elems == [] && f.rect == None
  {
    PaintFrame([], None)
  }
}
