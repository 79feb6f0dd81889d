/**
 * Hover hit-testing (`HoverCondition::check`): does a screen-space pointer
 * position fall inside the region of a labelled element, once the element's
 * canvas geometry is mapped to the screen by the current transform?
 *
 * Each region is first defined as a function; the loops of the source are
 * methods proved to compute exactly those functions. Lemmas then say what the
 * regions mean geometrically.
 */
module HoverCheck {
  import opened Geometry
  import opened Paint

  /** Squared hit distance for open paths: the source compares the distance with 10. */
  const Threshold2: real := 100.0

  function Cross(a: Vec2, b: Vec2): real
  {
    a.x * b.y - a.y * b.x
  }

  /** Rect arm: containment in the rectangle spanned by the two mapped corners. */
  predicate RectHit(rect: Rect, p: Pos2, t: RectTransform)
  {
    Contains(Rect(t.Apply(rect.min), t.Apply(rect.max)), p)
  }

  /**
   * One segment of the Path arm: both end dot products non-negative (no
   * round caps), then the distance from `p` to its projection below 10.
   * A degenerate segment (`a1 == a2`) divides zero by zero, and the NaN
   * distance compares false, so it never hits.
   */
  predicate SegmentHit(a1: Pos2, a2: Pos2, p: Pos2)
  {
    var d := Sub(a2, a1);
    if Dot(d, Sub(p, a1)) < 0.0 || Dot(Sub(a1, a2), Sub(p, a2)) < 0.0 then false
    else if LengthSq(d) == 0.0 then false
    else
      var r := Add(a1, Scale(Dot(d, Sub(p, a1)) / LengthSq(d), d));
      LengthSq(Sub(r, p)) < Threshold2
  }

  /** Path arm: some consecutive pair of mapped vertices forms a segment that hits. */
  predicate PathHit(path: seq<Pos2>, p: Pos2, t: RectTransform)
  {
    exists i :: 1 <= i < |path| && SegmentHit(t.Apply(path[i - 1]), t.Apply(path[i]), p)
  }

  /** Twice the signed area of the triangle `p1 p2 p3`. */
  function Det(p1: Pos2, p2: Pos2, p3: Pos2): real
  {
    (p1.x - p3.x) * (p2.y - p3.y) - (p2.x - p3.x) * (p1.y - p3.y)
  }

  /** The source's `cross` closure: the triangle is strictly clockwise (in y-up terms). */
  predicate Orient(p1: Pos2, p2: Pos2, p3: Pos2)
  {
    Det(p1, p2, p3) < 0.0
  }

  /** The three orientation flags of `p` against the edges of the triangle `a b c` agree. */
  predicate TripleAgrees(p: Pos2, a: Pos2, b: Pos2, c: Pos2)
  {
    Orient(p, a, b) == Orient(p, b, c) && Orient(p, b, c) == Orient(p, c, a)
  }

  /** The triple test at index `i`, with indices wrapping around the path. */
  predicate TripleAt(path: seq<Pos2>, i: nat, p: Pos2, t: RectTransform)
    requires i < |path|
  {
    var n := |path|;
    TripleAgrees(p, t.Apply(path[i]), t.Apply(path[(i + 1) % n]), t.Apply(path[(i + 2) % n]))
  }

  /** ClosedPath arm: the triple test holds at some index. */
  predicate ClosedPathHit(path: seq<Pos2>, p: Pos2, t: RectTransform)
  {
    exists i: nat :: i < |path| && TripleAt(path, i, p, t)
  }

  /**
   * Circle arm: the offset from the mapped centre, divided per axis by
   * `radius * scale`, has squared length at most 1. With a zero divisor the
   * f32 quotient is infinite or NaN and the comparison is false.
   */
  predicate CircleHit(c: Pos2, radius: real, p: Pos2, t: RectTransform)
  {
    var v := Sub(t.Apply(c), p);
    if radius * t.sx == 0.0 || radius * t.sy == 0.0 then false
    else
      var qx := v.x / (radius * t.sx);
      var qy := v.y / (radius * t.sy);
      qx * qx + qy * qy <= 1.0
  }

  /** `HoverCondition::check`. */
  predicate Hits(h: HoverCondition, p: Pos2, t: RectTransform)
  {
    match h
    case RectHover(rect) => RectHit(rect, p, t)
    case PathHover(path) => PathHit(path, p, t)
    case ClosedPathHover(path) => ClosedPathHit(path, p, t)
    case CircleHover(c, r) => CircleHit(c, r, p, t)
  }

  /** The Path arm's loop, which ORs in one segment test per step. */
  method CheckPath(path: seq<Pos2>, p: Pos2, t: RectTransform) returns (ok: bool)
    ensures ok == PathHit(path, p, t)
    ensures |path| < 2 ==> !ok
  {
    ok := false;
    var i := 1;
    while i < |path|
      invariant 1 <= i <= |path| || (|path| == 0 && i == 1)
      invariant ok <==> exists j :: 1 <= j < i && SegmentHit(t.Apply(path[j - 1]), t.Apply(path[j]), p)
    {
      var a1 := t.Apply(path[i - 1]);
      var a2 := t.Apply(path[i]);
      ok := ok || SegmentHit(a1, a2, p);
      i := i + 1;
    }
  }

  /** The ClosedPath arm's loop, which sets `ok` when a triple agrees. */
  method CheckClosedPath(path: seq<Pos2>, p: Pos2, t: RectTransform) returns (ok: bool)
    ensures ok == ClosedPathHit(path, p, t)
    ensures |path| == 0 ==> !ok
  {
    ok := false;
    var n := |path|;
    var i := 0;
    while i < n
      invariant 0 <= i <= n
      invariant ok <==> exists j: nat :: j < i && TripleAt(path, j, p, t)
    {
      var b1 := Orient(p, t.Apply(path[i]), t.Apply(path[(i + 1) % n]));
      var b2 := Orient(p, t.Apply(path[(i + 1) % n]), t.Apply(path[(i + 2) % n]));
      var b3 := Orient(p, t.Apply(path[(i + 2) % n]), t.Apply(path[i]));
      if b1 == b2 && b2 == b3 {
        ok := true;
      }
      assert (b1 == b2 && b2 == b3) == TripleAt(path, i, p, t);
      i := i + 1;
    }
  }

  /** `HoverCondition::check`, dispatching on the region kind. */
  method Check(h: HoverCondition, p: Pos2, t: RectTransform) returns (hit: bool)
    ensures hit == Hits(h, p, t)
  {
    match h
    case RectHover(rect) =>
      hit := RectHit(rect, p, t);
    case PathHover(path) =>
      hit := CheckPath(path, p, t);
    case ClosedPathHover(path) =>
      hit := CheckClosedPath(path, p, t);
    case CircleHover(c, r) =>
      hit := CircleHit(c, r, p, t);
  }

  // ---------------------------------------------------------------------
  // What the regions mean

  /**
   * With a positive scale, the Rect region is exactly the canvas rectangle:
   * the pointer hits iff its canvas position lies in `rect` (edges included).
   */
  lemma RectHitMeansCanvasContainment(rect: Rect, p: Pos2, t: RectTransform)
    requires t.sx > 0.0 && t.sy > 0.0
    ensures RectHit(rect, p, t) <==> Contains(rect, t.Inverse().Apply(p))
  {
    var q := t.Inverse().Apply(p);
    InverseLaw(t, p);
    assert p.x == t.ox + t.sx * q.x && p.y == t.oy + t.sy * q.y;
    AxisBetween(t.sx, t.ox, rect.min.x, rect.max.x, q.x);
    AxisBetween(t.sy, t.oy, rect.min.y, rect.max.y, q.y);
  }

  /** An increasing affine map keeps a coordinate between the same two bounds. */
  lemma AxisBetween(s: real, o: real, lo: real, hi: real, v: real)
    requires s > 0.0
    ensures (o + s * lo <= o + s * v <= o + s * hi) <==> lo <= v <= hi
  {
    ScaleMonotone(s, lo, v);
    ScaleMonotone(s, v, hi);
  }

  lemma ScaleMonotone(s: real, a: real, b: real)
    requires s > 0.0
    ensures s * a <= s * b <==> a <= b
  {
    assert s * b - s * a == s * (b - a);
  }

  /**
   * A point on a segment's line but beyond either end never hits, however
   * close to the line it is: the source has no round end caps.
   */
  lemma BeyondEndsNeverHits(a1: Pos2, a2: Pos2, s: real)
    requires a1 != a2
    requires s < 0.0 || s > 1.0
    ensures !SegmentHit(a1, a2, Add(a1, Scale(s, Sub(a2, a1))))
  {
    var d := Sub(a2, a1);
    var p := Add(a1, Scale(s, d));
    var L := LengthSq(d);
    assert L > 0.0 by {
      assert d.x != 0.0 || d.y != 0.0;
      if d.x != 0.0 { assert d.x * d.x > 0.0; } else { assert d.y * d.y > 0.0; }
    }
    assert Sub(p, a1) == Scale(s, d);
    assert Dot(d, Sub(p, a1)) == s * L;
    assert Sub(p, a2) == Scale(s - 1.0, d);
    assert Dot(Sub(a1, a2), Sub(p, a2)) == -(s - 1.0) * L;
    if s < 0.0 {
      assert s * L < 0.0;
    } else {
      assert (s - 1.0) * L > 0.0;
    }
  }

  /**
   * The segment test as plane geometry: the projection parameter of `p` lies
   * in [0, 1] and the perpendicular distance is below 10, stated without
   * division or square root (|d x w|^2 < 100 |d|^2).
   */
  lemma SegmentHitMeaning(a1: Pos2, a2: Pos2, p: Pos2)
    ensures SegmentHit(a1, a2, p) <==>
      var d, w := Sub(a2, a1), Sub(p, a1);
      LengthSq(d) > 0.0 && 0.0 <= Dot(d, w) <= LengthSq(d) &&
      Cross(d, w) * Cross(d, w) < Threshold2 * LengthSq(d)
  {
    var d, w := Sub(a2, a1), Sub(p, a1);
    var L, k := LengthSq(d), Dot(d, w);
    assert Dot(Sub(a1, a2), Sub(p, a2)) == L - k;
    if L > 0.0 && k >= 0.0 && L - k >= 0.0 {
      ProjectionHit(a1, a2, p);
    } else if L <= 0.0 {
      assert L >= 0.0 by { SquareNonNeg(d.x); SquareNonNeg(d.y); }
    }
  }

  /** Inside the segment's span, the distance test is the cross-product test. */
  lemma ProjectionHit(a1: Pos2, a2: Pos2, p: Pos2)
    requires LengthSq(Sub(a2, a1)) > 0.0
    ensures var d, w := Sub(a2, a1), Sub(p, a1);
      var r := Add(a1, Scale(Dot(d, w) / LengthSq(d), d));
      LengthSq(Sub(r, p)) < Threshold2 <==> Cross(d, w) * Cross(d, w) < Threshold2 * LengthSq(d)
  {
    var d, w := Sub(a2, a1), Sub(p, a1);
    var L, k := LengthSq(d), Dot(d, w);
    var s := k / L;
    var r := Add(a1, Scale(s, d));
    assert Sub(r, p) == Vec2(s * d.x - w.x, s * d.y - w.y);
    ProjectionDistance(d, w, s);
    var D := LengthSq(Sub(r, p));
    assert D * L == Cross(d, w) * Cross(d, w);
    ScaleMonotone(L, Threshold2, D);
  }

  lemma SquareNonNeg(x: real)
    ensures x * x >= 0.0
  {
  }

  /** Lagrange's identity, applied to the foot of the perpendicular. */
  lemma ProjectionDistance(d: Vec2, w: Vec2, s: real)
    requires LengthSq(d) > 0.0 && s == Dot(d, w) / LengthSq(d)
    ensures LengthSq(Vec2(s * d.x - w.x, s * d.y - w.y)) * LengthSq(d) == Cross(d, w) * Cross(d, w)
  {
    var L, k := LengthSq(d), Dot(d, w);
    assert s * L == k;
    var D := LengthSq(Vec2(s * d.x - w.x, s * d.y - w.y));
    assert D == s * s * L - 2.0 * s * k + LengthSq(w);
    calc {
      D * L;
      (s * s * L - 2.0 * s * k + LengthSq(w)) * L;
      (s * L) * (s * L) - 2.0 * k * (s * L) + LengthSq(w) * L;
      k * k - 2.0 * k * k + LengthSq(w) * L;
      LengthSq(w) * L - k * k;
      Cross(d, w) * Cross(d, w);
    }
  }

  /** A closed path with no vertex never hits. */
  lemma ClosedPathEmpty(p: Pos2, t: RectTransform)
    ensures !ClosedPathHit([], p, t)
  {
  }

  /**
   * A closed path with exactly one vertex always hits: every triangle is
   * degenerate, every flag is false, so the flags agree.
   */
  lemma ClosedPathSingleVertexAlwaysHits(v: Pos2, p: Pos2, t: RectTransform)
    ensures ClosedPathHit([v], p, t)
  {
    var a := t.Apply(v);
    assert Det(p, a, a) == 0.0;
    assert TripleAt([v], 0, p, t);
  }

  /** The three determinants of `p` against the edges add up to the triangle's own, whatever `p` is. */
  lemma DetSum(p: Pos2, a: Pos2, b: Pos2, c: Pos2)
    ensures Det(p, a, b) + Det(p, b, c) + Det(p, c, a) == Det(a, b, c)
  {
  }

  /** Rotating the triple does not change the test. */
  lemma TripleAgreesRotate(p: Pos2, a: Pos2, b: Pos2, c: Pos2)
    ensures TripleAgrees(p, a, b, c) == TripleAgrees(p, b, c, a)
  {
  }

  /**
   * For a triangle the unusual triple rule is an honest containment test:
   * with clockwise screen vertices (`Det < 0`) it holds iff `p` is strictly
   * inside, with counter-clockwise ones iff `p` is inside or on an edge.
   */
  lemma {:induction false} TriangleHit(a: Pos2, b: Pos2, c: Pos2, p: Pos2, t: RectTransform)
    requires Det(t.Apply(a), t.Apply(b), t.Apply(c)) != 0.0
    ensures
      var A, B, C := t.Apply(a), t.Apply(b), t.Apply(c);
      ClosedPathHit([a, b, c], p, t) <==>
        if Det(A, B, C) < 0.0 then Det(p, A, B) < 0.0 && Det(p, B, C) < 0.0 && Det(p, C, A) < 0.0
        else Det(p, A, B) >= 0.0 && Det(p, B, C) >= 0.0 && Det(p, C, A) >= 0.0
  {
    var path := [a, b, c];
    var A, B, C := t.Apply(a), t.Apply(b), t.Apply(c);
    DetSum(p, A, B, C);
    assert TripleAt(path, 0, p, t) == TripleAgrees(p, A, B, C);
    assert TripleAt(path, 1, p, t) == TripleAgrees(p, B, C, A);
    assert TripleAt(path, 2, p, t) == TripleAgrees(p, C, A, B);
    TripleAgreesRotate(p, A, B, C);
    TripleAgreesRotate(p, B, C, A);
    assert ClosedPathHit(path, p, t) <==> TripleAgrees(p, A, B, C) by {
      if ClosedPathHit(path, p, t) {
        var i: nat :| i < 3 && TripleAt(path, i, p, t);
        assert i == 0 || i == 1 || i == 2;
      } else {
        assert !TripleAt(path, 0, p, t);
      }
    }
  }

  /**
   * A concave quadrilateral shows that the rule is not point-in-polygon: the
   * point (0.3, 1) lies in the notch of the dart (0,0) (2,1) (0,2) (1,1),
   * outside the polygon, yet hits, because the triangle of the three
   * consecutive vertices (0,2) (1,1) (0,0) is exactly that notch.
   */
  lemma ConcaveFalsePositive()
    ensures
      var id := RectTransform(1.0, 1.0, 0.0, 0.0);
      ClosedPathHit([Pos2(0.0, 0.0), Pos2(2.0, 1.0), Pos2(0.0, 2.0), Pos2(1.0, 1.0)], Pos2(0.3, 1.0), id)
  {
    var id := RectTransform(1.0, 1.0, 0.0, 0.0);
    var path := [Pos2(0.0, 0.0), Pos2(2.0, 1.0), Pos2(0.0, 2.0), Pos2(1.0, 1.0)];
    assert TripleAt(path, 2, Pos2(0.3, 1.0), id);
  }

  /**
   * The Circle region is the canvas disc: with an invertible transform and a
   * positive radius, the pointer hits iff its canvas position is within
   * `radius` of the centre, however differently the two axes are scaled.
   */
  lemma CircleHitMeansCanvasDisc(c: Pos2, radius: real, p: Pos2, t: RectTransform)
    requires t.Invertible() && radius > 0.0
    ensures CircleHit(c, radius, p, t) <==> LengthSq(Sub(t.Inverse().Apply(p), c)) <= radius * radius
  {
    var q := t.Inverse().Apply(p);
    InverseLaw(t, p);
    assert t.Apply(q) == p;
    CircleHitAt(c, radius, q, t);
  }

  /** The Circle test at the screen image of a canvas point `q`. */
  lemma CircleHitAt(c: Pos2, radius: real, q: Pos2, t: RectTransform)
    requires t.Invertible() && radius > 0.0
    ensures CircleHit(c, radius, t.Apply(q), t) <==> LengthSq(Sub(q, c)) <= radius * radius
  {
    var v, d := Sub(t.Apply(c), t.Apply(q)), Sub(q, c);
    assert v.x + t.sx * d.x == 0.0 && v.y + t.sy * d.y == 0.0;
    DiscScale(v.x, v.y, d.x, d.y, radius, t.sx, t.sy);
  }

  /** Both axes of the Circle test: the scaled unit-disc test is the canvas disc test. */
  lemma DiscScale(vx: real, vy: real, dx: real, dy: real, r: real, sx: real, sy: real)
    requires r > 0.0 && sx != 0.0 && sy != 0.0 && vx + sx * dx == 0.0 && vy + sy * dy == 0.0
    ensures r * sx != 0.0 && r * sy != 0.0
    ensures (vx / (r * sx)) * (vx / (r * sx)) + (vy / (r * sy)) * (vy / (r * sy)) <= 1.0
        <==> dx * dx + dy * dy <= r * r
  {
    NonZeroProduct(r, sx);
    NonZeroProduct(r, sy);
    AxisSquare(vx, dx, r, sx);
    AxisSquare(vy, dy, r, sy);
    var a, b := Sq(vx / (r * sx)), Sq(vy / (r * sy));
    SqPositive(r);
    ScaleSum(Sq(r), a, b, Sq(dx), Sq(dy));
    ScaleUnit(Sq(r), a + b, Sq(dx) + Sq(dy));
  }

  /** One axis of the Circle test: the offset `v == -s * d`, divided by `r * s` and squared, is `d * d / (r * r)`. */
  lemma AxisSquare(v: real, d: real, r: real, s: real)
    requires r != 0.0 && s != 0.0 && r * s != 0.0 && v + s * d == 0.0
    ensures Sq(v / (r * s)) * Sq(r) == Sq(d)
  {
    var u := v / (r * s);
    assert u * (r * s) == v;
    assert (u * r + d) * s == 0.0;
    assert u * r == -d;
    assert (u * u) * (r * r) == (u * r) * (u * r);
    assert (-d) * (-d) == d * d;
  }

  /** The square, kept behind a name so that the solver treats it as one quantity. */
  function Sq(x: real): real
  {
    x * x
  }

  lemma SqPositive(r: real)
    requires r > 0.0
    ensures Sq(r) > 0.0
  {
    calc {
      Sq(r);
    ==
      r * r;
    > { PositiveProduct(r, r); }
      0.0;
    }
  }

  lemma ScaleSum(k: real, a: real, b: real, x: real, y: real)
    requires k * a == x && k * b == y
    ensures k * (a + b) == x + y
  {
  }

  /** A positive factor `k` carries the unit bound to the bound `k`, both ways. */
  lemma ScaleUnit(k: real, s: real, z: real)
    requires k > 0.0 && k * s == z
    ensures s <= 1.0 <==> z <= k
  {
    if s <= 1.0 {
      assert k * (1.0 - s) >= 0.0;
    } else {
      assert k * (s - 1.0) > 0.0;
    }
  }

  /** Scaling by a nonzero square keeps the order both ways. */
  lemma SquareScaleMonotone(k: real, a: real, b: real)
    requires k != 0.0
    ensures (k * k) * a <= (k * k) * b <==> a <= b
  {
    if a <= b {
      assert (k * k) * (b - a) >= 0.0;
    } else {
      assert (k * k) * (a - b) > 0.0;
    }
  }

  lemma PositiveProduct(a: real, b: real)
    requires a > 0.0 && b > 0.0
    ensures a * b > 0.0
  {
  }

  lemma NonZeroProduct(a: real, b: real)
    requires a != 0.0 && b != 0.0
    ensures a * b != 0.0
  {
  }

  /** The mapped centre always hits when radius and scales are nonzero. */
  lemma CircleCentreHits(c: Pos2, radius: real, t: RectTransform)
    requires radius * t.sx != 0.0 && radius * t.sy != 0.0
    ensures CircleHit(c, radius, t.Apply(c), t)
  {
  }
}
