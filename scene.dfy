/**
 * The persisted scene model of the shapes library: plain values built by
 * by-value builders, each of which sets one field or appends one item and
 * returns the updated value.
 */
module Scene {
  import opened Wrappers

  /** A `u8` colour channel. */
  type Byte = b: int | 0 <= b < 256

  datatype Pos = Pos(x: real, y: real)

  /** An opaque RGB colour (no alpha channel in this model of the library). */
  datatype Color = Color(r: Byte, g: Byte, b: Byte)

  const Black: Color := Color(0, 0, 0)

  datatype Stroke = Stroke(color: Color, width: real)

  /** `Stroke::default`. */
  function DefaultStroke(): (s: Stroke)
    ensures s.color == Color(0, 0, 0) && s.width == 1.0
  {
    Stroke(Black, 1.0)
  }

  /** A polyline; it is drawn and hit-tested as a closed polygon iff `fill` is present. */
  datatype Path = Path(vp: seq<Pos>, fill: Option<Color>, stroke: Stroke)
  {
    /** `Path::new`, the derived default. */
    static function New(): (p: Path)
      ensures p.vp == [] && p.fill == None && p.stroke == DefaultStroke()
    {
      Path.Path([], None, DefaultStroke())
    }

    /** `Path::from_vertices`: the given vertices, no fill, the default stroke. */
    static function FromVertices(vp: seq<Pos>): (p: Path)
      ensures p.vp == vp && p.fill == None && p.stroke == DefaultStroke()
    {
      New().(vp := vp)
    }

    /** `add_pos`: one more vertex at the end; nothing else changes. */
    function AddPos(q: Pos): (p: Path)
      ensures |p.vp| == |vp| + 1 && p.vp[..|vp|] == vp && p.vp[|vp|] == q
      ensures p.fill == fill && p.stroke == stroke
    {
      this.(vp := vp + [q])
    }

    /** `close`: sets the fill, which makes the path closed; nothing else changes. */
    function Close(c: Color): (p: Path)
      ensures p.fill == Some(c) && p.vp == vp && p.stroke == stroke
    {
      this.(fill := Some(c))
    }

    /** `stroke`: replaces the stroke only. */
    function WithStroke(c: Color, width: real): (p: Path)
      ensures p.stroke == Stroke(c, width) && p.vp == vp && p.fill == fill
    {
      this.(stroke := Stroke(c, width))
    }

    /** `element`: an unlabelled element holding this path. */
    function ToElement(): (e: Element)
      ensures e.shape == PathShape(this) && e.msg == None
    {
      Element(PathShape(this), None)
    }
  }

  datatype Circle = Circle(center: Pos, radius: real, fill: Option<Color>, stroke: Option<Stroke>)
  {
    /** `Circle::new`: neither fill nor stroke. */
    static function New(center: Pos, radius: real): (c: Circle)
      ensures c.center == center && c.radius == radius
      ensures c.fill == None && c.stroke == None
    {
      Circle.Circle(center, radius, None, None)
    }

    /** `fill`: sets the fill only. */
    function Fill(c: Color): (r: Circle)
      ensures r.fill == Some(c)
      ensures r.center == center && r.radius == radius && r.stroke == stroke
    {
      this.(fill := Some(c))
    }

    /** `stroke`: sets the stroke only. */
    function WithStroke(c: Color, width: real): (r: Circle)
      ensures r.stroke == Some(Stroke(c, width))
      ensures r.center == center && r.radius == radius && r.fill == fill
    {
      this.(stroke := Some(Stroke(c, width)))
    }

    function ToElement(): (e: Element)
      ensures e.shape == CircleShape(this) && e.msg == None
    {
      Element(CircleShape(this), None)
    }
  }

  datatype Text = Text(text: string, size: real, pos: Pos, color: Color)
  {
    /** `Text::new`: black text. */
    static function New(text: string, size: real, pos: Pos): (t: Text)
      ensures t.text == text && t.size == size && t.pos == pos && t.color == Color(0, 0, 0)
    {
      Text.Text(text, size, pos, Black)
    }

    /** `color`: replaces the colour only. */
    function WithColor(c: Color): (t: Text)
      ensures t.color == c && t.text == text && t.size == size && t.pos == pos
    {
      this.(color := c)
    }

    function ToElement(): (e: Element)
      ensures e.shape == TextShape(this) && e.msg == None
    {
      Element(TextShape(this), None)
    }
  }

  datatype Shape = PathShape(path: Path) | CircleShape(circle: Circle) | TextShape(text: Text)

  /** A shape with an optional hover label. */
  datatype Element = Element(shape: Shape, msg: Option<string>)
  {
    /** `with_msg`: sets the label, keeps the shape. */
    function WithMsg(m: string): (e: Element)
      ensures e.msg == Some(m) && e.shape == shape
    {
      this.(msg := Some(m))
    }
  }

  datatype Frame = Frame(elems: seq<Element>, p1: Pos, p2: Pos)
  {
    /** `Frame::new`: no elements, the two corners as given. */
    static function New(p1: Pos, p2: Pos): (f: Frame)
      ensures f.elems == [] && f.p1 == p1 && f.p2 == p2
    {
      Frame([], p1, p2)
    }

    /** `add_element`: appends at the end, so earlier elements keep their places. */
    function AddElement(e: Element): (f: Frame)
      ensures |f.elems| == |elems| + 1 && f.elems[..|elems|] == elems && f.elems[|elems|] == e
      ensures f.p1 == p1 && f.p2 == p2
    {
      this.(elems := elems + [e])
    }
  }

  datatype Frames = Frames(frames: seq<Frame>)
  {
    /** `Frames::new`: no frames. */
    static function New(): (fs: Frames)
      ensures fs.frames == []
    {
      Frames([])
    }

    /** `add_frame`: appends at the end. */
    function AddFrame(f: Frame): (fs: Frames)
      ensures |fs.frames| == |frames| + 1 && fs.frames[..|frames|] == frames && fs.frames[|frames|] == f
    {
      this.(frames := frames + [f])
    }
  }

  /** Applies `add_pos` once per vertex, in order. */
  function AddAll(p: Path, qs: seq<Pos>): Path
    decreases |qs|
  {
    if qs == [] then p else AddAll(p, qs[..|qs| - 1]).AddPos(qs[|qs| - 1])
  }

  /** Applies `add_element` once per element, in order. */
  function AddElements(f: Frame, es: seq<Element>): Frame
    decreases |es|
  {
    if es == [] then f else AddElements(f, es[..|es| - 1]).AddElement(es[|es| - 1])
  }

  /** Applies `add_frame` once per frame, in order. */
  function AddFrames(fs: Frames, more: seq<Frame>): Frames
    decreases |more|
  {
    if more == [] then fs else AddFrames(fs, more[..|more| - 1]).AddFrame(more[|more| - 1])
  }

  /**
   * Building a path vertex by vertex with `add_pos` gives the same path as
   * `from_vertices` of all the vertices at once.
   */
  lemma {:induction false} AddAllIsFromVertices(qs: seq<Pos>)
    ensures AddAll(Path.New(), qs) == Path.FromVertices(qs)
    decreases |qs|
  {
    if qs != [] {
      var init := qs[..|qs| - 1];
      AddAllIsFromVertices(init);
      assert init + [qs[|qs| - 1]] == qs;
    }
  }

  /** `add_element` calls keep their order and leave the corners alone. */
  lemma {:induction false} AddElementsKeepsOrder(f: Frame, es: seq<Element>)
    ensures AddElements(f, es).elems == f.elems + es
    ensures AddElements(f, es).p1 == f.p1 && AddElements(f, es).p2 == f.p2
    decreases |es|
  {
    if es != [] {
      var init := es[..|es| - 1];
      AddElementsKeepsOrder(f, init);
      assert f.elems + init + [es[|es| - 1]] == f.elems + es;
    }
  }

  /** `add_frame` calls keep their order. */
  lemma {:induction false} AddFramesKeepsOrder(fs: Frames, more: seq<Frame>)
    ensures AddFrames(fs, more).frames == fs.frames + more
    decreases |more|
  {
    if more != [] {
      var init := more[..|more| - 1];
      AddFramesKeepsOrder(fs, init);
      assert fs.frames + init + [more[|more| - 1]] == fs.frames + more;
    }
  }

  /** `close` and `stroke` touch different fields, so their order does not matter. */
  lemma CloseStrokeCommute(p: Path, fill: Color, c: Color, w: real)
    ensures p.Close(fill).WithStroke(c, w) == p.WithStroke(c, w).Close(fill)
  {
  }

  /** The same holds for a circle's `fill` and `stroke`. */
  lemma CircleFillStrokeCommute(k: Circle, fill: Color, c: Color, w: real)
    ensures k.Fill(fill).WithStroke(c, w) == k.WithStroke(c, w).Fill(fill)
  {
  }

  /** The last `with_msg` wins. */
  lemma WithMsgLastWins(e: Element, m1: string, m2: string)
    ensures e.WithMsg(m1).WithMsg(m2) == e.WithMsg(m2)
  {
  }
}
