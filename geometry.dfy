/**
 * Plane geometry of the viewer, over mathematical reals: points, axis-aligned
 * rectangles (egui's `Rect`) and the canvas-to-screen mapping (egui's
 * `RectTransform`), which has an independent scale and offset per axis and
 * no rotation or skew.
 */
module Geometry {

  datatype Pos2 = Pos2(x: real, y: real)

  datatype Vec2 = Vec2(x: real, y: real)

  function Sub(a: Pos2, b: Pos2): Vec2
  {
    Vec2(a.x - b.x, a.y - b.y)
  }

  function Add(p: Pos2, v: Vec2): Pos2
  {
    Pos2(p.x + v.x, p.y + v.y)
  }

  function Scale(k: real, v: Vec2): Vec2
  {
    Vec2(k * v.x, k * v.y)
  }

  function Neg(v: Vec2): Vec2
  {
    Vec2(-v.x, -v.y)
  }

  function Dot(a: Vec2, b: Vec2): real
  {
    a.x * b.x + a.y * b.y
  }

  function LengthSq(v: Vec2): real
  {
    Dot(v, v)
  }

  function Min(a: real, b: real): real
  {
    if a < b then a else b
  }

  function Max(a: real, b: real): real
  {
    if a < b then b else a
  }

  /** An axis-aligned rectangle given by its two corners. */
  datatype Rect = Rect(min: Pos2, max: Pos2)

  predicate Normalized(r: Rect)
  {
    r.min.x <= r.max.x && r.min.y <= r.max.y
  }

  /** `Rect::from_two_pos`: the smallest rectangle holding both points. */
  function FromTwoPos(a: Pos2, b: Pos2): (r: Rect)
    ensures Normalized(r)
    ensures Contains(r, a) && Contains(r, b)
    ensures r.min.x in {a.x, b.x} && r.min.y in {a.y, b.y}
    ensures r.max.x in {a.x, b.x} && r.max.y in {a.y, b.y}
  {
    Rect(Pos2(Min(a.x, b.x), Min(a.y, b.y)), Pos2(Max(a.x, b.x), Max(a.y, b.y)))
  }

  /** `Rect::contains`: closed on every edge. */
  predicate Contains(r: Rect, p: Pos2)
  {
    r.min.x <= p.x <= r.max.x && r.min.y <= p.y <= r.max.y
  }

  function Size(r: Rect): Vec2
  {
    Sub(r.max, r.min)
  }

  function Center(r: Rect): Pos2
  {
    Pos2((r.min.x + r.max.x) / 2.0, (r.min.y + r.max.y) / 2.0)
  }

  function Translate(r: Rect, v: Vec2): Rect
  {
    Rect(Add(r.min, v), Add(r.max, v))
  }

  /** `Rect::set_center`: translate so that the centre lands on `c`. */
  function SetCenter(r: Rect, c: Pos2): (r': Rect)
    ensures Center(r') == c && Size(r') == Size(r)
  {
    Translate(r, Sub(c, Center(r)))
  }

  /** The order of the two points does not matter. */
  lemma FromTwoPosSymmetric(a: Pos2, b: Pos2)
    ensures FromTwoPos(a, b) == FromTwoPos(b, a)
  {
  }

  /** A normalized rectangle is its own bounding box. */
  lemma FromTwoPosOfNormalized(r: Rect)
    requires Normalized(r)
    ensures FromTwoPos(r.min, r.max) == r
  {
  }

  /**
   * egui's `RectTransform`, seen as the affine map
   * `p |-> (ox + sx * p.x, oy + sy * p.y)`.
   */
  datatype RectTransform = RectTransform(sx: real, sy: real, ox: real, oy: real)
  {
    predicate Invertible()
    {
      sx != 0.0 && sy != 0.0
    }

    /** `to_screen * p`. */
    function Apply(p: Pos2): Pos2
    {
      Pos2(ox + sx * p.x, oy + sy * p.y)
    }

    function Inverse(): (t: RectTransform)
      requires Invertible()
      ensures t.Invertible()
    {
      RectTransform(1.0 / sx, 1.0 / sy, -ox / sx, -oy / sy)
    }
  }

  /**
   * `RectTransform::from_to`: the map sending `from` onto `to` axis by axis.
   * Both corners land on the corresponding corners.
   */
  function FromTo(from: Rect, to: Rect): (t: RectTransform)
    requires from.min.x != from.max.x && from.min.y != from.max.y
    ensures t.Apply(from.min) == to.min && t.Apply(from.max) == to.max
    ensures t.sx == (to.max.x - to.min.x) / (from.max.x - from.min.x)
    ensures t.sy == (to.max.y - to.min.y) / (from.max.y - from.min.y)
  {
    var sx := (to.max.x - to.min.x) / (from.max.x - from.min.x);
    var sy := (to.max.y - to.min.y) / (from.max.y - from.min.y);
    var t := RectTransform(sx, sy, to.min.x - sx * from.min.x, to.min.y - sy * from.min.y);
    DivTimes(to.max.x - to.min.x, from.max.x - from.min.x);
    DivTimes(to.max.y - to.min.y, from.max.y - from.min.y);
    assert sx * from.max.x - sx * from.min.x == sx * (from.max.x - from.min.x);
    assert sy * from.max.y - sy * from.min.y == sy * (from.max.y - from.min.y);
    t
  }

  /** Dividing by a nonzero number and multiplying back gives the number again. */
  lemma DivTimes(a: real, b: real)
    requires b != 0.0
    ensures (a / b) * b == a
  {
  }

  /** The inverse map undoes the map, in both orders. */
  lemma InverseLaw(t: RectTransform, p: Pos2)
    requires t.Invertible()
    ensures t.Inverse().Apply(t.Apply(p)) == p
    ensures t.Apply(t.Inverse().Apply(p)) == p
  {
    var i := t.Inverse();
    calc {
      i.Apply(t.Apply(p)).x;
      -t.ox / t.sx + (1.0 / t.sx) * (t.ox + t.sx * p.x);
      p.x;
    }
    calc {
      i.Apply(t.Apply(p)).y;
      -t.oy / t.sy + (1.0 / t.sy) * (t.oy + t.sy * p.y);
      p.y;
    }
    calc {
      t.Apply(i.Apply(p)).x;
      t.ox + t.sx * (-t.ox / t.sx + (1.0 / t.sx) * p.x);
      p.x;
    }
    calc {
      t.Apply(i.Apply(p)).y;
      t.oy + t.sy * (-t.oy / t.sy + (1.0 / t.sy) * p.y);
      p.y;
    }
  }

  /** A transform maps differences of points by scaling each axis. */
  lemma ApplyDifference(t: RectTransform, a: Pos2, b: Pos2)
    ensures Sub(t.Apply(a), t.Apply(b)) == Vec2(t.sx * (a.x - b.x), t.sy * (a.y - b.y))
  {
  }
}
