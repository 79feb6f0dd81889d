/**
 * The conversion the viewer applies to decoded scene frames
 * (`PaintFrame::from_file` after decoding): each library shape becomes an
 * egui shape, and each label becomes a hover region over the geometry that
 * is drawn. Frames and elements keep their order.
 */
module Convert {
  import opened Wrappers
  import opened Geometry
  import Scene
  import opened Paint

  function ToPos2(p: Scene.Pos): Pos2
  {
    Pos2(p.x, p.y)
  }

  /** The vertices of a path, each converted, in order. */
  function ToPoints(vp: seq<Scene.Pos>): (ps: seq<Pos2>)
    ensures |ps| == |vp| && forall i :: 0 <= i < |vp| ==> ps[i] == ToPos2(vp[i])
  {
    seq(|vp|, i requires 0 <= i < |vp| => ToPos2(vp[i]))
  }

  /** A fill: the colour if there is one, transparent otherwise. */
  function FillColor(fill: Option<Scene.Color>): (c: Color32)
    ensures fill.None? ==> c == Transparent
    ensures fill.Some? ==> c == FromRgb(fill.value) && c.a == 255
  {
    if fill.Some? then FromRgb(fill.value) else Transparent
  }

  function ToStroke(s: Scene.Stroke): (k: PaintStroke)
    ensures k.width == s.width && k.color == FromRgb(s.color)
  {
    PaintStroke(s.width, FromRgb(s.color))
  }

  /** A circle's stroke: egui's default stroke (no stroke) when the circle has none. */
  function CircleStroke(s: Option<Scene.Stroke>): (k: PaintStroke)
    ensures s.None? ==> k == NoStroke
    ensures s.Some? ==> k == ToStroke(s.value)
  {
    if s.Some? then ToStroke(s.value) else NoStroke
  }

  /**
   * What a converted element satisfies: text carries no hover, and a shape's
   * hover region is the geometry that is drawn, of the matching kind (a
   * closed path gets the polygon test, an open one the segment test).
   */
  predicate HoverOverDrawn(e: FrameElement)
  {
    match e.kind
    case TextKind(_) => e.hover.None?
    case ShapeKind(s) =>
      e.hover.Some? ==>
        match s
        case PathShape(points, closed, _, _) =>
          e.hover.value.cond == (if closed then ClosedPathHover(points) else PathHover(points))
        case RectShape(rect, _, _, _) => e.hover.value.cond == RectHover(rect)
        case CircleShape(center, radius, _, _) => e.hover.value.cond == CircleHover(center, radius)
  }

  /** The shape → element mapping inside `from_file`. */
  function ConvertElement(e: Scene.Element): (r: FrameElement)
    ensures HoverOverDrawn(r)
    ensures r.kind.TextKind? <==> e.shape.TextShape?
    ensures r.hover.Some? <==> e.msg.Some? && !e.shape.TextShape?
    ensures r.hover.Some? ==> r.hover.value.msg == e.msg.value
  {
    match e.shape
    case PathShape(p) =>
      var vp := ToPoints(p.vp);
      var closed := p.fill.Some?;
      var shape := PathShape(vp, closed, FillColor(p.fill), ToStroke(p.stroke));
      var cond := if closed then ClosedPathHover(vp) else PathHover(vp);
      FrameElement(ShapeKind(shape), if e.msg.Some? then Some(Hover(cond, e.msg.value)) else None)
    case CircleShape(c) =>
      var center := ToPos2(c.center);
      var shape := CircleShape(center, c.radius, FillColor(c.fill), CircleStroke(c.stroke));
      var cond := CircleHover(center, c.radius);
      FrameElement(ShapeKind(shape), if e.msg.Some? then Some(Hover(cond, e.msg.value)) else None)
    case TextShape(t) =>
      FrameElement(TextKind(TextItem(t.text, ToPos2(t.pos), t.size, FromRgb(t.color))), None)
  }

  /** One decoded frame: its elements converted in order; its rectangle spanned by the two corners. */
  function ConvertFrame(f: Scene.Frame): (r: PaintFrame)
    ensures |r.elems| == |f.elems|
    ensures forall i :: 0 <= i < |f.elems| ==> r.elems[i] == ConvertElement(f.elems[i])
    ensures r.rect == Some(FromTwoPos(ToPos2(f.p1), ToPos2(f.p2)))
    ensures r.rect.Some? && Normalized(r.rect.value)
  {
    PaintFrame(seq(|f.elems|, i requires 0 <= i < |f.elems| => ConvertElement(f.elems[i])),
               Some(FromTwoPos(ToPos2(f.p1), ToPos2(f.p2))))
  }

  /** `from_file` after decoding: every frame converted, in order. */
  function ConvertFrames(fs: Scene.Frames): (r: seq<PaintFrame>)
    ensures |r| == |fs.frames|
    ensures forall i :: 0 <= i < |fs.frames| ==> r[i] == ConvertFrame(fs.frames[i])
    ensures forall i :: 0 <= i < |r| ==> r[i].rect.Some?
  {
    seq(|fs.frames|, i requires 0 <= i < |fs.frames| => ConvertFrame(fs.frames[i]))
  }

  /* ---------------------------------------------------------------- lemmas */

  /** A converted path is drawn closed exactly when it has a fill, and is transparent inside exactly when open. */
  lemma ClosedIffFilled(p: Scene.Path, msg: Option<string>)
    ensures ConvertElement(Scene.Element(Scene.PathShape(p), msg)).kind.shape.closed <==> p.fill.Some?
    ensures ConvertElement(Scene.Element(Scene.PathShape(p), msg)).kind.shape.fill == Transparent <==> p.fill.None?
  {
  }

  /** A text element gets no hover, whatever its label. */
  lemma TextNeverHovers(t: Scene.Text, msg: string)
    ensures ConvertElement(Scene.Element(Scene.TextShape(t), Some(msg))).hover.None?
  {
  }

  /** A labelled path built from vertices gets the open-path hover over exactly its vertices. */
  lemma LabelledOpenPath(vp: seq<Scene.Pos>, m: string)
    ensures ConvertElement(Scene.Path.FromVertices(vp).ToElement().WithMsg(m)).hover
         == Some(Hover(PathHover(ToPoints(vp)), m))
    ensures !ConvertElement(Scene.Path.FromVertices(vp).ToElement().WithMsg(m)).kind.shape.closed
  {
  }

  /** A labelled path closed with a colour gets the polygon hover and is drawn closed and filled. */
  lemma LabelledClosedPath(vp: seq<Scene.Pos>, c: Scene.Color, m: string)
    ensures ConvertElement(Scene.Path.FromVertices(vp).Close(c).ToElement().WithMsg(m)).hover
         == Some(Hover(ClosedPathHover(ToPoints(vp)), m))
    ensures ConvertElement(Scene.Path.FromVertices(vp).Close(c).ToElement().WithMsg(m)).kind.shape
         == PathShape(ToPoints(vp), true, FromRgb(c), ToStroke(Scene.DefaultStroke()))
  {
  }

  /** A new circle is drawn transparent and without stroke; its label hovers over the circle. */
  lemma NewCircle(center: Scene.Pos, radius: real, m: string)
    ensures ConvertElement(Scene.Circle.New(center, radius).ToElement().WithMsg(m))
         == FrameElement(ShapeKind(CircleShape(ToPos2(center), radius, Transparent, NoStroke)),
                         Some(Hover(CircleHover(ToPos2(center), radius), m)))
  {
  }

  /** Adding an element to a scene frame adds its conversion at the end of the converted frame. */
  lemma AddElementConverts(f: Scene.Frame, e: Scene.Element)
    ensures ConvertFrame(f.AddElement(e)).elems == ConvertFrame(f).elems + [ConvertElement(e)]
    ensures ConvertFrame(f.AddElement(e)).rect == ConvertFrame(f).rect
  {
    var g := f.AddElement(e);
    assert ConvertFrame(g).elems == ConvertFrame(f).elems + [ConvertElement(e)] by {
      forall i | 0 <= i < |g.elems|
        ensures ConvertFrame(g).elems[i] == (ConvertFrame(f).elems + [ConvertElement(e)])[i]
      {
        if i < |f.elems| {
          assert g.elems[i] == f.elems[i];
        }
      }
    }
  }

  /** Adding a frame adds its conversion at the end. */
  lemma AddFrameConverts(fs: Scene.Frames, f: Scene.Frame)
    ensures ConvertFrames(fs.AddFrame(f)) == ConvertFrames(fs) + [ConvertFrame(f)]
  {
    var gs := fs.AddFrame(f);
    forall i | 0 <= i < |gs.frames|
      ensures ConvertFrames(gs)[i] == (ConvertFrames(fs) + [ConvertFrame(f)])[i]
    {
      if i < |fs.frames| {
        assert gs.frames[i] == fs.frames[i];
      }
    }
  }
}
