/**
 * `shape_transform` (visualizer/src/transform.rs): a paint shape in canvas
 * coordinates mapped to the screen by the current transform. The Euclidean
 * length of the transform's scale vector is a square root; it is passed in
 * as `scaleLen`, pinned down by its square.
 */
module Transform {
  import opened Wrappers
  import opened Geometry
  import opened Paint
  import opened HoverCheck

  /** Everything but the geometry is kept: same kind, closedness, rounding, fill and stroke. */
  predicate SameStyle(a: PaintShape, b: PaintShape)
  {
    match a
    case PathShape(_, closed, fill, stroke) =>
      b.PathShape? && b.closed == closed && b.fill == fill && b.stroke == stroke
    case RectShape(_, rounding, fill, stroke) =>
      b.RectShape? && b.rounding == rounding && b.fill == fill && b.stroke == stroke
    case CircleShape(_, _, fill, stroke) =>
      b.CircleShape? && b.fill == fill && b.stroke == stroke
  }

  function MapPoints(ps: seq<Pos2>, t: RectTransform): (qs: seq<Pos2>)
    ensures |qs| == |ps| && forall i :: 0 <= i < |ps| ==> qs[i] == t.Apply(ps[i])
  {
    seq(|ps|, i requires 0 <= i < |ps| => t.Apply(ps[i]))
  }

  /** Points and corners mapped by `t`; a circle's radius multiplied by `k`. */
  function Mapped(shape: PaintShape, t: RectTransform, k: real): (r: PaintShape)
    ensures SameStyle(shape, r)
    ensures shape.PathShape? ==> r.points == MapPoints(shape.points, t)
    ensures shape.RectShape? ==> r.rect == Rect(t.Apply(shape.rect.min), t.Apply(shape.rect.max))
    ensures shape.CircleShape? ==> r.center == t.Apply(shape.center) && r.radius == k * shape.radius
  {
    match shape
    case PathShape(points, closed, fill, stroke) =>
      PathShape(MapPoints(points, t), closed, fill, stroke)
    case RectShape(rect, rounding, fill, stroke) =>
      RectShape(Rect(t.Apply(rect.min), t.Apply(rect.max)), rounding, fill, stroke)
    case CircleShape(center, radius, fill, stroke) =>
      CircleShape(t.Apply(center), k * radius, fill, stroke)
  }

  /**
   * `shape_transform` as written: a circle's radius is multiplied by the
   * length of the scale vector `(sx, sy)`. Every shape kind modelled here
   * gets a result.
   */
  function ShapeTransform(shape: PaintShape, t: RectTransform, scaleLen: real): (r: Option<PaintShape>)
    requires scaleLen >= 0.0 && scaleLen * scaleLen == t.sx * t.sx + t.sy * t.sy
    ensures r.Some? && SameStyle(shape, r.value)
    ensures shape.PathShape? ==> r.value.points == MapPoints(shape.points, t)
    ensures shape.RectShape? ==> r.value.rect == Rect(t.Apply(shape.rect.min), t.Apply(shape.rect.max))
    ensures shape.CircleShape? ==> r.value.center == t.Apply(shape.center)
    ensures shape.CircleShape? ==> r.value.radius == scaleLen * shape.radius
  {
    Some(Mapped(shape, t, scaleLen))
  }

  /**
   * The corrected transform: a circle's radius is multiplied by the
   * geometric mean of the two axis scales (`geoScale * geoScale == sx * sy`),
   * the factor the viewer already uses for text sizes; for a uniform scale
   * `s` it is `s`.
   */
  function ShapeTransformFixed(shape: PaintShape, t: RectTransform, geoScale: real): (r: Option<PaintShape>)
    requires geoScale >= 0.0 && geoScale * geoScale == t.sx * t.sy
    ensures r.Some? && SameStyle(shape, r.value)
    ensures shape.PathShape? ==> r.value.points == MapPoints(shape.points, t)
    ensures shape.RectShape? ==> r.value.rect == Rect(t.Apply(shape.rect.min), t.Apply(shape.rect.max))
    ensures shape.CircleShape? ==> r.value.center == t.Apply(shape.center)
    ensures shape.CircleShape? ==> r.value.radius == geoScale * shape.radius
  {
    Some(Mapped(shape, t, geoScale))
  }

  /* ---------------------------------------------------------------- lemmas */

  /** With a positive scale a normalized rectangle stays normalized on the screen. */
  lemma RectStaysNormalized(rect: Rect, rounding: real, fill: Color32, stroke: PaintStroke, t: RectTransform, len: real)
    requires t.sx > 0.0 && t.sy > 0.0 && Normalized(rect)
    requires len >= 0.0 && len * len == t.sx * t.sx + t.sy * t.sy
    ensures Normalized(ShapeTransform(RectShape(rect, rounding, fill, stroke), t, len).value.rect)
  {
    var r := ShapeTransform(RectShape(rect, rounding, fill, stroke), t, len).value.rect;
    var a, b := t.Apply(rect.min), t.Apply(rect.max);
    assert r == Rect(a, b);
    ScaleMonotone(t.sx, rect.min.x, rect.max.x);
    ScaleMonotone(t.sy, rect.min.y, rect.max.y);
    assert a.x <= b.x && a.y <= b.y;
  }

  /** The screen-space disc of radius `d` around a point. */
  predicate InDisc(center: Pos2, d: real, p: Pos2)
  {
    LengthSq(Sub(center, p)) <= d * d
  }

  /**
   * As written, even the identity transform draws a circle of radius `r`
   * with radius `r * sqrt 2`: the pointer at distance `1.2 * r` from the
   * centre is inside the drawn circle, but outside the hover region.
   */
  lemma DrawnCircleTooLarge(c: Pos2, r: real, len: real, fill: Color32, stroke: PaintStroke)
    requires r > 0.0 && len >= 0.0 && len * len == 2.0
    ensures var t := RectTransform(1.0, 1.0, 0.0, 0.0);
            var drawn := ShapeTransform(CircleShape(c, r, fill, stroke), t, len).value;
            var p := Pos2(c.x + 1.2 * r, c.y);
            && drawn.radius * drawn.radius == 2.0 * r * r
            && InDisc(drawn.center, drawn.radius, p)
            && !CircleHit(c, r, p, t)
  {
    var t := RectTransform(1.0, 1.0, 0.0, 0.0);
    var drawn := ShapeTransform(CircleShape(c, r, fill, stroke), t, len).value;
    var p := Pos2(c.x + 1.2 * r, c.y);
    assert Sub(t.Apply(c), p) == Vec2(-1.2 * r, 0.0);
    assert LengthSq(Sub(drawn.center, p)) == 1.44 * r * r;
    assert (-1.2 * r) / (r * 1.0) == -1.2;
  }

  /**
   * Corrected: under a uniform positive scale the drawn circle is exactly
   * the hover region: the pointer lies in the drawn disc iff the circle's
   * hover test holds.
   */
  lemma FixedCircleIsHoverRegion(c: Pos2, r: real, fill: Color32, stroke: PaintStroke, t: RectTransform, p: Pos2)
    requires r > 0.0 && t.sx > 0.0 && t.sx == t.sy
    ensures var drawn := ShapeTransformFixed(CircleShape(c, r, fill, stroke), t, t.sx).value;
            InDisc(drawn.center, drawn.radius, p) <==> CircleHit(c, r, p, t)
  {
    CircleHitMeansCanvasDisc(c, r, p, t);
    FixedDrawnDisc(c, r, fill, stroke, t, p);
  }

  /** Under a uniform positive scale, the pointer is in the drawn disc iff its canvas point is in the canvas disc. */
  lemma FixedDrawnDisc(c: Pos2, r: real, fill: Color32, stroke: PaintStroke, t: RectTransform, p: Pos2)
    requires r > 0.0 && t.sx > 0.0 && t.sx == t.sy
    ensures var drawn := ShapeTransformFixed(CircleShape(c, r, fill, stroke), t, t.sx).value;
            var q := t.Inverse().Apply(p);
            InDisc(drawn.center, drawn.radius, p) <==> LengthSq(Sub(q, c)) <= r * r
  {
    var q := t.Inverse().Apply(p);
    InverseLaw(t, p);
    UniformOffset(t, c, q);
    ScaledDisc(t.sx, Sub(c, q), r);
    LengthSqFlip(c, q);
  }

  /** Under a uniform scale, the screen offset between two points is the canvas offset scaled. */
  lemma UniformOffset(t: RectTransform, a: Pos2, b: Pos2)
    requires t.sx == t.sy
    ensures Sub(t.Apply(a), t.Apply(b)) == Scale(t.sx, Sub(a, b))
  {
    assert (t.ox + t.sx * a.x) - (t.ox + t.sx * b.x) == t.sx * (a.x - b.x);
    assert (t.oy + t.sy * a.y) - (t.oy + t.sy * b.y) == t.sy * (a.y - b.y);
  }

  /**
   * Scaling an offset `v` and a radius `r` by the same positive `s` keeps
   * the offset inside the radius exactly when it was.
   */
  lemma ScaledDisc(s: real, v: Vec2, r: real)
    requires s > 0.0
    ensures LengthSq(Scale(s, v)) <= (s * r) * (s * r) <==> LengthSq(v) <= r * r
  {
    LengthSqScale(s, v);
    ProductSquare(s, r);
    ScaledLe(LengthSq(Scale(s, v)), (s * r) * (s * r), LengthSq(v), r * r, s, s);
  }

  /** Comparing two values scaled by the same positive factors is comparing the values. */
  lemma ScaledLe(a: real, b: real, x: real, y: real, k: real, m: real)
    requires k > 0.0 && m > 0.0 && a == k * (m * x) && b == k * (m * y)
    ensures a <= b <==> x <= y
  {
    ScaleMonotone(m, x, y);
    ScaleMonotone(k, m * x, m * y);
  }

  /** Scaling a vector by `s` scales its squared length by `s * s`. */
  lemma LengthSqScale(s: real, v: Vec2)
    ensures LengthSq(Scale(s, v)) == s * (s * LengthSq(v))
  {
    assert (s * v.x) * (s * v.x) == (s * s) * (v.x * v.x);
    assert (s * v.y) * (s * v.y) == (s * s) * (v.y * v.y);
  }

  /** The squared distance is symmetric. */
  lemma LengthSqFlip(a: Pos2, b: Pos2)
    ensures LengthSq(Sub(a, b)) == LengthSq(Sub(b, a))
  {
    assert (a.x - b.x) * (a.x - b.x) == (b.x - a.x) * (b.x - a.x);
    assert (a.y - b.y) * (a.y - b.y) == (b.y - a.y) * (b.y - a.y);
  }

  /** The square of a product, regrouped. */
  lemma ProductSquare(s: real, r: real)
    ensures (s * r) * (s * r) == s * (s * (r * r))
  {
  }

  /** Under the identity, the corrected transform leaves a circle's radius as it is. */
  lemma FixedIdentity(c: Pos2, r: real, fill: Color32, stroke: PaintStroke)
    requires r >= 0.0
    ensures ShapeTransformFixed(CircleShape(c, r, fill, stroke), RectTransform(1.0, 1.0, 0.0, 0.0), 1.0).value
         == CircleShape(c, r, fill, stroke)
  {
  }
}
