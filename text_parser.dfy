/**
 * The line-oriented text format of frames (src/parser.rs): a header line
 * `# (x,y) (x,y)` with the canvas corners, then one element per line:
 *
 *   p [ (x,y) , (x,y) ... ] {{label}}        an open polyline, stroke 1 black
 *   r (x,y) (x,y) {{label}}                  a rectangle outline, stroke 1 black
 *   rf (x,y) (x,y) COLOUR {{label}}          a filled rectangle, no stroke
 *
 * where the `{{label}}` is optional. Every parser is a function from the
 * input to a `Result` carrying the unconsumed remainder; the `many0` and
 * `separated_list0` combinators never fail and return what they could read.
 * The label reader is a loop in the source and is a method here, proved to
 * compute the label function.
 */
module TextParser {
  import opened Wrappers
  import opened Geometry
  import opened Lexer
  import opened Paint
  import opened ColorParse

  /* ---------------------------------------------------------------- labels */

  /**
   * The characters of a label up to the first `}}` (tried before any single
   * character at every position); an input that ends first is an error.
   */
  function LabelBody(s: string): (r: Result<string>)
    ensures r.Ok? ==> |r.value| + 2 <= |s| && |r.rest| + |r.value| + 2 == |s|
    decreases |s|
  {
    if |s| >= 2 && s[0] == '}' && s[1] == '}' then Ok([], s[2..])
    else if |s| == 0 then Err
    else Prepend([s[0]], LabelBody(s[1..]))
  }

  /** A label that was read after `m`: `m` in front of its characters. */
  function Prepend(m: string, r: Result<string>): (r': Result<string>)
    ensures r'.Ok? <==> r.Ok?
    ensures r.Ok? ==> r'.value == m + r.value && r'.rest == r.rest
  {
    if r.Ok? then Ok(m + r.value, r.rest) else Err
  }

  /** `parsemsg` as a function: `{{`, then the label body. */
  function Label(s: string): (r: Result<string>)
    ensures r.Ok? ==> |r.rest| + 4 <= |s|
  {
    var a :- Tag("{{", s);
    LabelBody(a.1)
  }

  /** `parsemsg`: reads `{{`, then one character at a time until `}}`. */
  method ParseLabel(s: string) returns (r: Result<string>)
    ensures r == Label(s)
  {
    if !(|s| >= 2 && s[..2] == "{{") {
      return Err;
    }
    assert Label(s) == LabelBody(s[2..]);
    var i := 2;
    var msg := "";
    PrependNothing(LabelBody(s[2..]));
    while true
      invariant 2 <= i <= |s|
      invariant LabelBody(s[2..]) == Prepend(msg, LabelBody(s[i..]))
      decreases |s| - i
    {
      if i + 2 <= |s| && s[i] == '}' && s[i + 1] == '}' {
        assert LabelBody(s[i..]) == Ok([], s[i + 2..]);
        assert msg + [] == msg;
        return Ok(msg, s[i + 2..]);
      }
      if i == |s| {
        return Err;
      }
      PrependTwice(msg, [s[i]], LabelBody(s[i + 1..]));
      assert s[i..][1..] == s[i + 1..];
      msg := msg + [s[i]];
      i := i + 1;
    }
  }

  lemma PrependNothing(r: Result<string>)
    ensures Prepend([], r) == r
  {
    if r.Ok? {
      assert [] + r.value == r.value;
    }
  }

  lemma PrependTwice(m1: string, m2: string, r: Result<string>)
    ensures Prepend(m1, Prepend(m2, r)) == Prepend(m1 + m2, r)
  {
    if r.Ok? {
      assert m1 + (m2 + r.value) == (m1 + m2) + r.value;
    }
  }

  /** `opt(parsemsg)`: the label if one can be read, otherwise nothing and the input untouched. */
  function OptLabel(s: string): (r: (Option<string>, string))
    ensures r.0.None? ==> r.1 == s && Label(s).Err?
    ensures r.0.Some? ==> Label(s) == Ok(r.0.value, r.1)
  {
    var l := Label(s);
    if l.Ok? then (Some(l.value), l.rest) else (None, s)
  }

  /** A label that can be written between `{{` and `}}`: every `}` in it is followed, inside it, by another character. */
  predicate Closable(m: string)
  {
    forall i :: 0 <= i < |m| && m[i] == '}' ==> i + 1 < |m| && m[i + 1] != '}'
  }

  /** A closable label followed by `}}` is read back exactly. */
  lemma {:induction false} LabelBodyOf(m: string, rest: string)
    requires Closable(m)
    ensures LabelBody(m + ("}}" + rest)) == Ok(m, rest)
    decreases |m|
  {
    var s := m + ("}}" + rest);
    if m == [] {
      assert s == "}}" + rest;
      assert s[2..] == rest;
    } else {
      assert s[0] == m[0];
      assert !(s[0] == '}' && s[1] == '}') by {
        if m[0] == '}' {
          assert 1 < |m| && m[1] != '}';
          assert s[1] == m[1];
        }
      }
      assert Closable(m[1..]) by {
        forall i | 0 <= i < |m[1..]| && m[1..][i] == '}'
          ensures i + 1 < |m[1..]| && m[1..][i + 1] != '}'
        {
          assert m[i + 1] == '}';
        }
      }
      assert s[1..] == m[1..] + ("}}" + rest);
      LabelBodyOf(m[1..], rest);
      assert [m[0]] + m[1..] == m;
    }
  }

  /** Conversely, whatever the label reader returns is closable and was followed by `}}`. */
  lemma {:induction false} LabelBodyShape(s: string)
    requires LabelBody(s).Ok?
    ensures Closable(LabelBody(s).value)
    ensures s == LabelBody(s).value + ("}}" + LabelBody(s).rest)
    decreases |s|
  {
    if |s| >= 2 && s[0] == '}' && s[1] == '}' {
      assert s == [] + ("}}" + s[2..]);
    } else {
      var t := LabelBody(s[1..]);
      LabelBodyShape(s[1..]);
      var m := [s[0]] + t.value;
      assert LabelBody(s).value == m;
      assert s == m + ("}}" + t.rest) by {
        assert s == [s[0]] + s[1..];
      }
      forall i | 0 <= i < |m| && m[i] == '}'
        ensures i + 1 < |m| && m[i + 1] != '}'
      {
        if i == 0 {
          assert s[1] != '}';
          assert m[1] == t.value[0] == s[1];
        } else {
          assert m[i] == t.value[i - 1];
        }
      }
    }
  }

  /** `{{m}}` is read back as the label `m` exactly when `m` is closable. */
  lemma LabelRoundTrip(m: string, rest: string)
    ensures Closable(m) ==> Label("{{" + m + "}}" + rest) == Ok(m, rest)
    ensures Label("{{" + m + "}}" + rest) == Ok(m, rest) ==> Closable(m)
  {
    var s := "{{" + m + "}}" + rest;
    assert s == "{{" + (m + ("}}" + rest));
    TagThen("{{", m + ("}}" + rest));
    if Closable(m) {
      LabelBodyOf(m, rest);
    }
    if Label(s) == Ok(m, rest) {
      LabelBodyShape(m + ("}}" + rest));
    }
  }

  /* ------------------------------------------------------------- positions */

  /** `parse_pos2`: `(`, x, `,`, y, `)` with optional spaces inside. */
  function ParsePos2(s: string): (r: Result<Pos2>)
    ensures r.Ok? ==> |r.rest| < |s| && s[0] == '('
  {
    var a :- Tag("(", s);
    var x :- Float(Space0(a.1));
    var b :- Tag(",", Space0(x.1));
    var y :- Float(Space0(b.1));
    var c :- Tag(")", Space0(y.1));
    Ok(Pos2(x.0, y.0), c.1)
  }

  /** The separator of a point list: optional spaces, `,`, optional spaces. */
  function Separator(s: string): (r: Result<()>)
    ensures r.Ok? ==> |r.rest| < |s|
  {
    var a :- Tag(",", Space0(s));
    Ok((), Space0(a.1))
  }

  /**
   * The points after the first one of `separated_list0`: each needs a
   * separator and a point; when either is missing the list ends before the
   * separator.
   */
  function MorePoints(s: string): (r: (seq<Pos2>, string))
    ensures |r.1| <= |s|
    decreases |s|
  {
    var sep := Separator(s);
    if sep.Err? then ([], s) else
    var p := ParsePos2(sep.rest);
    if p.Err? then ([], s) else
    var more := MorePoints(p.rest);
    ([p.value] + more.0, more.1)
  }

  /** `separated_list0(sep, parse_pos2)`: never fails; an empty list leaves the input untouched. */
  function Points(s: string): (r: (seq<Pos2>, string))
    ensures |r.1| <= |s|
    ensures r.0 == [] <==> ParsePos2(s).Err?
    ensures r.0 == [] ==> r.1 == s
  {
    var p := ParsePos2(s);
    if p.Err? then ([], s) else
    var more := MorePoints(p.rest);
    ([p.value] + more.0, more.1)
  }

  /** `parse_vec_pos2`: `[`, the point list, `]`, with optional spaces inside. */
  function ParseVecPos2(s: string): (r: Result<seq<Pos2>>)
    ensures r.Ok? ==> |r.rest| < |s|
  {
    var a :- Tag("[", s);
    var ps := Points(Space0(a.1));
    var b :- Tag("]", Space0(ps.1));
    Ok(ps.0, b.1)
  }

  /* -------------------------------------------------------------- elements */

  /** The stroke of paths and rectangle outlines read from text: width 1, black. */
  const TextStroke: PaintStroke := PaintStroke(1.0, Black32)

  /**
   * What every element read from text satisfies: its label, if any, is
   * shown over exactly the geometry that is drawn (the polyline's points or
   * the rectangle), and drawn rectangles are normalized.
   */
  predicate HoverMatchesShape(e: FrameElement)
  {
    && e.kind.ShapeKind?
    && match e.kind.shape
       case PathShape(points, closed, fill, stroke) =>
         && !closed && fill == Transparent && stroke == TextStroke
         && (e.hover.Some? ==> e.hover.value.cond == PathHover(points))
       case RectShape(rect, rounding, fill, stroke) =>
         && Normalized(rect) && rounding == 0.0
         && (e.hover.Some? ==> e.hover.value.cond == RectHover(rect))
       case CircleShape(_, _, _, _) => false
  }

  /** `parse_path`: `p `, optional spaces, a point list, optional spaces, an optional label. */
  function ParsePath(s: string): (r: Result<FrameElement>)
    ensures r.Ok? ==> |r.rest| < |s| && HoverMatchesShape(r.value)
    ensures r.Ok? ==> r.value.kind.shape.PathShape?
    ensures r.Ok? <==> |s| >= 2 && s[..2] == "p " && ParseVecPos2(Space0(s[2..])).Ok?
    ensures r.Ok? ==>
      var vp := ParseVecPos2(Space0(s[2..]));
      var t := Space0(vp.rest);
      && r.value.kind.shape.points == vp.value
      && (r.value.hover.Some? <==> Label(t).Ok?)
      && (r.value.hover.Some? ==> r.value.hover.value == Hover(PathHover(vp.value), Label(t).value) && r.rest == Label(t).rest)
      && (r.value.hover.None? ==> r.rest == t)
  {
    var a :- Tag("p ", s);
    var vp :- ParseVecPos2(Space0(a.1));
    var msg := OptLabel(Space0(vp.1));
    var hover := if msg.0.Some? then Some(Hover(PathHover(vp.0), msg.0.value)) else None;
    Ok(FrameElement(ShapeKind(Line(vp.0, TextStroke)), hover), msg.1)
  }

  /** `parse_rect`: `r`, two corners, an optional label; an outline of width 1, transparent inside. */
  function ParseRect(s: string): (r: Result<FrameElement>)
    ensures r.Ok? ==> |r.rest| < |s| && HoverMatchesShape(r.value)
    ensures r.Ok? ==> (r.value.kind.shape.RectShape? &&
      r.value.kind.shape.fill == Transparent && r.value.kind.shape.stroke == TextStroke)
    ensures r.Ok? <==>
      && |s| >= 1 && s[..1] == "r"
      && ParsePos2(Space0(s[1..])).Ok?
      && ParsePos2(Space0(ParsePos2(Space0(s[1..])).rest)).Ok?
    ensures r.Ok? ==>
      var p1 := ParsePos2(Space0(s[1..]));
      var p2 := ParsePos2(Space0(p1.rest));
      var t := Space0(p2.rest);
      && r.value.kind.shape.rect == FromTwoPos(p1.value, p2.value)
      && (r.value.hover.Some? <==> Label(t).Ok?)
      && (r.value.hover.Some? ==> r.value.hover.value.msg == Label(t).value && r.rest == Label(t).rest)
      && (r.value.hover.None? ==> r.rest == t)
  {
    var a :- Tag("r", s);
    var p1 :- ParsePos2(Space0(a.1));
    var p2 :- ParsePos2(Space0(p1.1));
    var msg := OptLabel(Space0(p2.1));
    var rect := FromTwoPos(p1.0, p2.0);
    var hover := if msg.0.Some? then Some(Hover(RectHover(rect), msg.0.value)) else None;
    Ok(FrameElement(ShapeKind(RectShape(rect, 0.0, Transparent, TextStroke)), hover), msg.1)
  }

  /** `parse_rect_fill`: `rf`, two corners, a colour, an optional label; filled, without outline. */
  function ParseRectFill(s: string, pal: Palette): (r: Result<FrameElement>)
    ensures r.Ok? ==> |r.rest| < |s| && HoverMatchesShape(r.value)
    ensures r.Ok? ==> r.value.kind.shape.RectShape? && r.value.kind.shape.stroke == NoStroke
    ensures r.Ok? <==>
      && |s| >= 2 && s[..2] == "rf"
      && ParsePos2(Space0(s[2..])).Ok?
      && ParsePos2(Space0(ParsePos2(Space0(s[2..])).rest)).Ok?
      && ParseColor(Space0(ParsePos2(Space0(ParsePos2(Space0(s[2..])).rest)).rest), pal).Ok?
    ensures r.Ok? ==>
      var p1 := ParsePos2(Space0(s[2..]));
      var p2 := ParsePos2(Space0(p1.rest));
      var c := ParseColor(Space0(p2.rest), pal);
      var t := Space0(c.rest);
      && r.value.kind.shape.rect == FromTwoPos(p1.value, p2.value)
      && r.value.kind.shape.fill == c.value
      && (r.value.hover.Some? <==> Label(t).Ok?)
      && (r.value.hover.Some? ==> r.value.hover.value.msg == Label(t).value && r.rest == Label(t).rest)
      && (r.value.hover.None? ==> r.rest == t)
  {
    var a :- Tag("rf", s);
    var p1 :- ParsePos2(Space0(a.1));
    var p2 :- ParsePos2(Space0(p1.1));
    var c :- ParseColor(Space0(p2.1), pal);
    var msg := OptLabel(Space0(c.1));
    var rect := FromTwoPos(p1.0, p2.0);
    var hover := if msg.0.Some? then Some(Hover(RectHover(rect), msg.0.value)) else None;
    Ok(FrameElement(ShapeKind(RectShape(rect, 0.0, c.0, NoStroke)), hover), msg.1)
  }

  /** `parse_element`: the first of path, rectangle and filled rectangle that succeeds. */
  function ParseElement(s: string, pal: Palette): (r: Result<FrameElement>)
    ensures r.Ok? ==> |r.rest| < |s| && HoverMatchesShape(r.value)
  {
    var p := ParsePath(s);
    if p.Ok? then p else
    var q := ParseRect(s);
    if q.Ok? then q else
    ParseRectFill(s, pal)
  }

  /** One element line: the element, optional spaces and a line break. */
  function ElementLine(s: string, pal: Palette): (r: Result<FrameElement>)
    ensures r.Ok? ==> |r.rest| < |s| && HoverMatchesShape(r.value)
  {
    var e :- ParseElement(s, pal);
    var n :- Newline(Space0(e.1));
    Ok(e.0, n.1)
  }

  /** `many0` over element lines: as many as can be read, then the remainder. */
  function ElementLines(s: string, pal: Palette): (r: (seq<FrameElement>, string))
    ensures |r.1| <= |s|
    ensures ElementLine(r.1, pal).Err?
    ensures forall e <- r.0 :: HoverMatchesShape(e)
    decreases |s|
  {
    var e := ElementLine(s, pal);
    if e.Err? then ([], s) else
    var more := ElementLines(e.rest, pal);
    ([e.value] + more.0, more.1)
  }

  /* ---------------------------------------------------------------- frames */

  /** `PaintFrame::parse`: the header `# ` corner corner, then the element lines. */
  function ParseFrame(s: string, pal: Palette): (r: Result<PaintFrame>)
    ensures r.Ok? ==> |r.rest| < |s|
    ensures r.Ok? ==> r.value.rect.Some? && Normalized(r.value.rect.value)
    ensures r.Ok? ==> forall e <- r.value.elems :: HoverMatchesShape(e)
    ensures r.Ok? ==> ElementLine(r.rest, pal).Err?
    ensures r.Ok? <==>
      && |s| >= 2 && s[..2] == "# "
      && ParsePos2(Space0(s[2..])).Ok?
      && ParsePos2(Space0(ParsePos2(Space0(s[2..])).rest)).Ok?
      && Newline(Space0(ParsePos2(Space0(ParsePos2(Space0(s[2..])).rest)).rest)).Ok?
    ensures r.Ok? ==>
      var p1 := ParsePos2(Space0(s[2..]));
      var p2 := ParsePos2(Space0(p1.rest));
      var n := Newline(Space0(p2.rest));
      && r.value.rect == Some(FromTwoPos(p1.value, p2.value))
      && (r.value.elems, r.rest) == ElementLines(n.rest, pal)
  {
    var a :- Tag("# ", s);
    var p1 :- ParsePos2(Space0(a.1));
    var p2 :- ParsePos2(Space0(p1.1));
    var n :- Newline(Space0(p2.1));
    var es := ElementLines(n.1, pal);
    Ok(PaintFrame(es.0, Some(FromTwoPos(p1.0, p2.0))), es.1)
  }

  /** `PaintFrame::multi_parse`: `many0` over frames; what cannot be read is returned, not rejected. */
  function MultiParse(s: string, pal: Palette): (r: (seq<PaintFrame>, string))
    ensures |r.1| <= |s|
    ensures ParseFrame(r.1, pal).Err?
    ensures forall f <- r.0 :: f.rect.Some? && Normalized(f.rect.value)
    decreases |s|
  {
    var f := ParseFrame(s, pal);
    if f.Err? then ([], s) else
    var more := MultiParse(f.rest, pal);
    ([f.value] + more.0, more.1)
  }

  /* ---------------------------------------------------------------- lemmas */

  /** `rf` is never read as an outline rectangle: after `r` the corner must begin, and `f` does not. */
  lemma FilledIsNotOutline(rest: string)
    ensures ParseRect("rf" + rest).Err?
  {
    var s := "rf" + rest;
    assert s == "r" + ("f" + rest);
    TagThen("r", "f" + rest);
    Space0None("f" + rest);
  }

  /** A filled-rectangle line is read by the third alternative of `parse_element`. */
  lemma FilledRectangleAlternative(rest: string, pal: Palette)
    ensures ParseElement("rf" + rest, pal) == ParseRectFill("rf" + rest, pal)
  {
    FilledIsNotOutline(rest);
    var s := "rf" + rest;
    assert s[0] == 'r';
  }
}
