/**
 * What the C++ writer prints (frame.hpp), the text parser reads back
 * (src/parser.rs): numbers, points, point lists, labels, element lines and
 * whole frames. The one exception is an empty path, which the writer prints
 * without its closing `]`.
 */
module RoundTrip {
  import opened Wrappers
  import opened Geometry
  import opened Lexer
  import opened Paint
  import opened ColorParse
  import opened TextParser
  import opened FramePrinter

  /** The digits of a non-negative number, `.`, and its six fraction digits. */
  function Unsigned(m: nat): string
  {
    NatToDigits(m / Micro) + ("." + Padded(m % Micro, 6))
  }

  lemma MicroSplit(m: nat)
    ensures (m / Micro) as real + (m % Micro) as real / 1000000.0 == m as real / Micro as real
  {
    var q := m / Micro;
    var r := m % Micro;
    assert m == q * Micro + r;
    assert m as real == q as real * 1000000.0 + r as real;
  }

  lemma {:induction false} UnsignedRoundTrip(m: nat, rest: string)
    requires rest == [] || !IsDigit(rest[0])
    ensures IsDigit((Unsigned(m) + rest)[0])
    ensures Float(Unsigned(m) + rest).Ok?
    ensures Float(Unsigned(m) + rest).value == m as real / Micro as real
    ensures Float(Unsigned(m) + rest).rest == rest
  {
    var q := m / Micro;
    var r := m % Micro;
    var whole := NatToDigits(q);
    var frac := Padded(r, 6);
    var t := whole + ("." + (frac + rest));
    assert Unsigned(m) + rest == t;
    assert IsDigit(whole[0]);
    FloatOfDecimal(whole, frac, rest);
    NatToDigitsValue(q);
    assert Pow10(6) == Micro;
    PaddedValue(r, 6);
    ShiftedSix(r);
    MicroSplit(m);
  }

  /** A printed number is read back as the number it stands for. */
  lemma FixedRoundTrip(n: int, rest: string)
    requires rest == [] || !IsDigit(rest[0])
    ensures |FixedText(n)| > 0 && !IsSpace(FixedText(n)[0])
    ensures Float(FixedText(n) + rest).Ok?
    ensures Float(FixedText(n) + rest).value == Value(n)
    ensures Float(FixedText(n) + rest).rest == rest
  {
    var m := if n < 0 then -n else n;
    UnsignedRoundTrip(m, rest);
    var t := Unsigned(m) + rest;
    if n < 0 {
      assert FixedText(n) == "-" + Unsigned(m);
      Assoc("-", Unsigned(m), rest);
      FloatNegative(t);
      assert Value(n) == -(m as real / Micro as real);
    } else {
      assert FixedText(n) == Unsigned(m);
    }
  }

  /** The point a printed `pos2` stands for. */
  function Meaning(p: FPos): (q: Pos2)
    ensures q.x == Value(p.x) && q.y == Value(p.y)
  {
    Pos2(Value(p.x), Value(p.y))
  }

  lemma PosTextSplit(p: FPos, rest: string)
    ensures PosText(p) + rest == "(" + (FixedText(p.x) + ("," + (FixedText(p.y) + (")" + rest))))
  {
    var x := FixedText(p.x);
    var y := FixedText(p.y);
    Assoc("(" + x + "," + y, ")", rest);
    Assoc("(" + x + ",", y, ")" + rest);
    Assoc("(" + x, ",", y + (")" + rest));
    Assoc("(", x, "," + (y + (")" + rest)));
  }

  /** A printed point is read back as the point it stands for. */
  lemma PosRoundTrip(p: FPos, rest: string)
    ensures ParsePos2(PosText(p) + rest).Ok?
    ensures ParsePos2(PosText(p) + rest).value == Meaning(p)
    ensures ParsePos2(PosText(p) + rest).rest == rest
  {
    var x := FixedText(p.x);
    var y := FixedText(p.y);
    var r3 := ")" + rest;
    var r2 := y + r3;
    var r1 := "," + r2;
    var r0 := x + r1;
    PosTextSplit(p, rest);
    TagThen("(", r0);
    FixedRoundTrip(p.x, r1);
    Space0None(r0);
    Space0None(r1);
    TagThen(",", r2);
    FixedRoundTrip(p.y, r3);
    Space0None(r2);
    Space0None(r3);
    TagThen(")", rest);
  }

  /** The points a printed point list stands for. */
  function Meanings(ps: seq<FPos>): (qs: seq<Pos2>)
    ensures |qs| == |ps| && forall i :: 0 <= i < |ps| ==> qs[i] == Meaning(ps[i])
  {
    seq(|ps|, i requires 0 <= i < |ps| => Meaning(ps[i]))
  }

  /** The rounds from `i` on: the text of round `i`, then the rest. */
  lemma JoinFrontFrom(items: seq<string>, i: nat)
    requires i < |items|
    ensures JoinFront(items[i..]) == items[i] + JoinFront(items[i + 1..])
  {
    assert items[i..][1..] == items[i + 1..];
  }

  /**
   * After the first point, `separated_list0` reads one point per `,` and
   * stops at the `]` the writer puts after the last one.
   */
  lemma {:induction false} PointsFrom(ps: seq<FPos>, i: nat, tail: string)
    requires 1 <= i <= |ps|
    ensures MorePoints(Mark(ps, i - 1) + (JoinFront(Items(ps)[i..]) + tail)).0 == Meanings(ps)[i..]
    ensures MorePoints(Mark(ps, i - 1) + (JoinFront(Items(ps)[i..]) + tail)).1 == "]" + tail
    decreases |ps| - i
  {
    var items := Items(ps);
    if i == |ps| {
      PointsFromLast(ps, tail);
    } else {
      var s := Mark(ps, i - 1) + (JoinFront(items[i..]) + tail);
      var rest := JoinFront(items[i + 1..]) + tail;
      assert s == "," + (items[i] + rest) by {
        assert Mark(ps, i - 1) == ",";
        JoinFrontFrom(items, i);
        Assoc(items[i], JoinFront(items[i + 1..]), tail);
      }
      var m := MorePoints(s);
      var n := MorePoints(Mark(ps, i) + rest);
      assert m.0 == [Meaning(ps[i])] + n.0 && m.1 == n.1 by {
        ItemStep(ps, i, rest);
      }
      assert n.0 == Meanings(ps)[i + 1..] && n.1 == "]" + tail by {
        PointsFrom(ps, i + 1, tail);
        assert Mark(ps, i + 1 - 1) == Mark(ps, i);
      }
      MeaningsFrom(ps, i);
    }
  }

  /** Behind the last point only its `]` is left, and the list ends there. */
  lemma PointsFromLast(ps: seq<FPos>, tail: string)
    requires 1 <= |ps|
    ensures MorePoints(Mark(ps, |ps| - 1) + (JoinFront(Items(ps)[|ps|..]) + tail)) == ([], "]" + tail)
    ensures Meanings(ps)[|ps|..] == []
  {
    assert Items(ps)[|ps|..] == [];
    assert Mark(ps, |ps| - 1) + (JoinFront(Items(ps)[|ps|..]) + tail) == "]" + tail;
    PointsEnd(tail);
  }

  lemma MeaningsFrom(ps: seq<FPos>, i: nat)
    requires i < |ps|
    ensures Meanings(ps)[i..] == [Meaning(ps[i])] + Meanings(ps)[i + 1..]
  {
  }

  /** After a `,`, the text of round `i` gives point `i` and leaves the mark behind it. */
  lemma ItemStep(ps: seq<FPos>, i: nat, rest: string)
    requires i < |ps|
    ensures MorePoints("," + (Items(ps)[i] + rest)).0 == [Meaning(ps[i])] + MorePoints(Mark(ps, i) + rest).0
    ensures MorePoints("," + (Items(ps)[i] + rest)).1 == MorePoints(Mark(ps, i) + rest).1
  {
    var p := PosText(ps[i]);
    assert Items(ps)[i] == p + Mark(ps, i);
    Assoc(p, Mark(ps, i), rest);
    SeparatedPoint(ps[i], Mark(ps, i) + rest);
  }

  /** A `,` and a printed point add that point to the list. */
  lemma SeparatedPoint(p: FPos, r: string)
    ensures MorePoints("," + (PosText(p) + r)).0 == [Meaning(p)] + MorePoints(r).0
    ensures MorePoints("," + (PosText(p) + r)).1 == MorePoints(r).1
  {
    var t := PosText(p) + r;
    PosTextSplit(p, r);
    SeparatorBeforePoint(t);
    PosRoundTrip(p, r);
  }

  /** A `,` directly in front of a point is a separator and consumes only itself. */
  lemma SeparatorBeforePoint(t: string)
    requires |t| > 0 && t[0] == '('
    ensures Separator("," + t) == Ok((), t)
  {
    Space0None("," + t);
    TagThen(",", t);
    Space0None(t);
  }

  /** The list ends at `]`: no separator follows. */
  lemma PointsEnd(tail: string)
    ensures MorePoints("]" + tail) == ([], "]" + tail)
  {
    Space0None("]" + tail);
  }

  /** The text of the first round gives the first point and leaves its mark behind it. */
  lemma FirstItem(ps: seq<FPos>, rest: string)
    requires 0 < |ps|
    ensures Points(Items(ps)[0] + rest).0 == [Meaning(ps[0])] + MorePoints(Mark(ps, 0) + rest).0
    ensures Points(Items(ps)[0] + rest).1 == MorePoints(Mark(ps, 0) + rest).1
  {
    var p := PosText(ps[0]);
    assert Items(ps)[0] == p + Mark(ps, 0);
    Assoc(p, Mark(ps, 0), rest);
    PosRoundTrip(ps[0], Mark(ps, 0) + rest);
  }

  /** A printed non-empty point list is read back as the points it stands for, up to its `]`. */
  lemma PointsRoundTrip(ps: seq<FPos>, tail: string)
    requires |ps| > 0
    ensures Points(JoinFront(Items(ps)) + tail).0 == Meanings(ps)
    ensures Points(JoinFront(Items(ps)) + tail).1 == "]" + tail
  {
    var items := Items(ps);
    var rest := JoinFront(items[1..]) + tail;
    JoinFrontFrom(items, 0);
    assert items[0..] == items;
    Assoc(items[0], JoinFront(items[1..]), tail);
    assert JoinFront(items) + tail == items[0] + rest;
    FirstItem(ps, rest);
    PointsFrom(ps, 1, tail);
    MeaningsFrom(ps, 0);
    assert Meanings(ps)[0..] == Meanings(ps);
  }

  /* ------------------------------------------------------------ element lines */

  /** The element a path line stands for: an open polyline of width 1 with its label over the points. */
  function PathElement(msg: string, qs: seq<Pos2>): (e: FrameElement)
    ensures HoverMatchesShape(e) && e.hover == Some(Hover(PathHover(qs), msg))
  {
    FrameElement(ShapeKind(Line(qs, TextStroke)), Some(Hover(PathHover(qs), msg)))
  }

  /** A bracketed point list reads as the points `separated_list0` found up to `]`. */
  lemma VecOf(j: string, tail: string, qs: seq<Pos2>)
    requires Space0(j + tail) == j + tail
    requires Points(j + tail).0 == qs
    requires Points(j + tail).1 == "]" + tail
    ensures ParseVecPos2("[" + (j + tail)).Ok?
    ensures ParseVecPos2("[" + (j + tail)).value == qs
    ensures ParseVecPos2("[" + (j + tail)).rest == tail
  {
    TagThen("[", j + tail);
    Space0None("]" + tail);
    TagThen("]", tail);
  }

  /** The label after a point list, then the line break. */
  lemma LabelLineOf(msg: string, more: string)
    requires Closable(msg)
    ensures OptLabel(Space0(" " + ("{{" + msg + "}}" + ("\n" + more)))) == (Some(msg), "\n" + more)
    ensures Newline(Space0("\n" + more)) == Ok((), more)
  {
    Space0Skips(" ", "{{" + msg + "}}" + ("\n" + more));
    LabelRoundTrip(msg, "\n" + more);
    Space0None("\n" + more);
  }

  lemma PathRegroup(j: string, msg: string, more: string)
    ensures "p [" + j + " {{" + msg + "}}\n" + more
         == "p " + ("[" + (j + (" " + ("{{" + msg + "}}" + ("\n" + more)))))
  {
    var lab := "{{" + msg + "}}";
    assert "p [" == "p " + "[";
    assert " {{" + msg + "}}\n" == " " + lab + "\n";
    Assoc("p [" + j, " {{" + msg + "}}\n", more);
    Assoc(" " + lab, "\n", more);
    Assoc(" ", lab, "\n" + more);
    Assoc("p " + "[", j, " " + (lab + ("\n" + more)));
    Assoc("p ", "[", j + (" " + (lab + ("\n" + more))));
  }

  /** A path line whose point list reads as `qs` up to its `]` reads as the labelled polyline over `qs`. */
  lemma PathLineOf(j: string, msg: string, more: string, qs: seq<Pos2>, pal: Palette)
    requires Closable(msg)
    requires Space0(j + (" " + ("{{" + msg + "}}" + ("\n" + more)))) == j + (" " + ("{{" + msg + "}}" + ("\n" + more)))
    requires Points(j + (" " + ("{{" + msg + "}}" + ("\n" + more)))).0 == qs
    requires Points(j + (" " + ("{{" + msg + "}}" + ("\n" + more)))).1 == "]" + (" " + ("{{" + msg + "}}" + ("\n" + more)))
    ensures ElementLine("p [" + j + " {{" + msg + "}}\n" + more, pal).Ok?
    ensures ElementLine("p [" + j + " {{" + msg + "}}\n" + more, pal).value == PathElement(msg, qs)
    ensures ElementLine("p [" + j + " {{" + msg + "}}\n" + more, pal).rest == more
  {
    var tail := " " + ("{{" + msg + "}}" + ("\n" + more));
    var body := "[" + (j + tail);
    var s := "p [" + j + " {{" + msg + "}}\n" + more;
    PathRegroup(j, msg, more);
    TagThen("p ", body);
    Space0None(body);
    VecOf(j, tail, qs);
    LabelLineOf(msg, more);
    assert ParsePath(s) == Ok(PathElement(msg, qs), "\n" + more);
  }

  /** A printed non-empty path is read back as the labelled polyline over the points it stands for. */
  lemma PathLineRoundTrip(msg: string, ps: seq<FPos>, more: string, pal: Palette)
    requires Closable(msg) && |ps| > 0
    ensures ElementLine(PathText(msg, ps) + more, pal).Ok?
    ensures ElementLine(PathText(msg, ps) + more, pal).value == PathElement(msg, Meanings(ps))
    ensures ElementLine(PathText(msg, ps) + more, pal).rest == more
  {
    var j := Join(Items(ps));
    var tail := " " + ("{{" + msg + "}}" + ("\n" + more));
    JoinBothWays(Items(ps));
    PointsRoundTrip(ps, tail);
    assert ParsePos2(j + tail).Ok?;
    Space0None(j + tail);
    PathLineOf(j, msg, more, Meanings(ps), pal);
  }

  /** The element a rectangle line stands for: a width-1 outline of the normalized rectangle, labelled over it. */
  function RectElement(msg: string, q1: Pos2, q2: Pos2): (e: FrameElement)
    ensures HoverMatchesShape(e)
    ensures e.kind.shape.RectShape? && e.kind.shape.rect == FromTwoPos(q1, q2)
    ensures e.hover == Some(Hover(RectHover(FromTwoPos(q1, q2)), msg))
  {
    var rect := FromTwoPos(q1, q2);
    FrameElement(ShapeKind(RectShape(rect, 0.0, Transparent, TextStroke)), Some(Hover(RectHover(rect), msg)))
  }

  lemma RectRegroup(a: string, b: string, msg: string, more: string)
    ensures "r " + a + " " + b + " {{" + msg + "}}\n" + more
         == "r" + (" " + (a + (" " + (b + (" " + ("{{" + msg + "}}" + ("\n" + more)))))))
  {
    var lab := "{{" + msg + "}}";
    var tail := " " + (lab + ("\n" + more));
    assert " {{" + msg + "}}\n" == " " + lab + "\n";
    Assoc("r " + a + " " + b, " {{" + msg + "}}\n", more);
    Assoc(" " + lab, "\n", more);
    Assoc(" ", lab, "\n" + more);
    Assoc("r " + a + " ", b, tail);
    Assoc("r " + a, " ", b + tail);
    Assoc("r ", a, " " + (b + tail));
    assert "r " == "r" + " ";
    Assoc("r", " ", a + (" " + (b + tail)));
  }

  /** A line that starts with anything but `p` is not a path. */
  lemma NotAPath(s: string)
    requires |s| > 0 && s[0] != 'p'
    ensures ParsePath(s).Err?
  {
    assert Tag("p ", s).Err? by {
      if |s| >= 2 {
        assert s[..2][0] == s[0];
      }
    }
  }

  /** A rectangle line whose corners read as `q1` and `q2` reads as the labelled outline they span. */
  lemma RectLineOf(a: string, b: string, msg: string, more: string, q1: Pos2, q2: Pos2, pal: Palette)
    requires Closable(msg)
    requires ParsePos2(a + (" " + (b + (" " + ("{{" + msg + "}}" + ("\n" + more)))))) == Ok(q1, " " + (b + (" " + ("{{" + msg + "}}" + ("\n" + more)))))
    requires ParsePos2(b + (" " + ("{{" + msg + "}}" + ("\n" + more)))) == Ok(q2, " " + ("{{" + msg + "}}" + ("\n" + more)))
    ensures ElementLine("r " + a + " " + b + " {{" + msg + "}}\n" + more, pal).Ok?
    ensures ElementLine("r " + a + " " + b + " {{" + msg + "}}\n" + more, pal).value == RectElement(msg, q1, q2)
    ensures ElementLine("r " + a + " " + b + " {{" + msg + "}}\n" + more, pal).rest == more
  {
    var tail := " " + ("{{" + msg + "}}" + ("\n" + more));
    var second := b + tail;
    var first := a + (" " + second);
    var s := "r " + a + " " + b + " {{" + msg + "}}\n" + more;
    RectRegroup(a, b, msg, more);
    assert s == "r" + (" " + first);
    assert s[0] == 'r';
    NotAPath(s);
    TagThen("r", " " + first);
    Space0Skips(" ", first);
    Space0Skips(" ", second);
    LabelLineOf(msg, more);
    assert ParseRect(s) == Ok(RectElement(msg, q1, q2), "\n" + more);
  }

  /** A printed rectangle is read back as the labelled outline its corners span. */
  lemma RectLineRoundTrip(msg: string, p1: FPos, p2: FPos, more: string, pal: Palette)
    requires Closable(msg)
    ensures ElementLine(RectText(msg, p1, p2) + more, pal).Ok?
    ensures ElementLine(RectText(msg, p1, p2) + more, pal).value == RectElement(msg, Meaning(p1), Meaning(p2))
    ensures ElementLine(RectText(msg, p1, p2) + more, pal).rest == more
  {
    var tail := " " + ("{{" + msg + "}}" + ("\n" + more));
    var a := PosText(p1);
    var b := PosText(p2);
    PosRoundTrip(p2, tail);
    PosRoundTrip(p1, " " + (b + tail));
    RectLineOf(a, b, msg, more, Meaning(p1), Meaning(p2), pal);
  }

  /* ---------------------------------------------------------------- empty paths */

  /** A line that does not start with `r` is neither kind of rectangle. */
  lemma NotARect(s: string, pal: Palette)
    requires |s| > 0 && s[0] != 'r'
    ensures ParseRect(s).Err? && ParseRectFill(s, pal).Err?
  {
    assert Tag("r", s).Err? by {
      if |s| >= 1 {
        assert s[..1][0] == s[0];
      }
    }
    assert Tag("rf", s).Err? by {
      if |s| >= 2 {
        assert s[..2][0] == s[0];
      }
    }
  }

  /** `p [` followed by a label and no point list is not a path: the list is never closed. */
  lemma UnclosedList(lab: string)
    requires |lab| > 0 && lab[0] == '{'
    ensures ParsePath("p " + ("[" + (" " + lab))).Err?
  {
    var t := " " + lab;
    TagThen("p ", "[" + t);
    Space0None("[" + t);
    TagThen("[", t);
    Space0Skips(" ", lab);
    Space0None(lab);
    assert ParsePos2(lab).Err?;
    assert Tag("]", lab).Err? by {
      if |lab| >= 1 {
        assert lab[..1][0] == lab[0];
      }
    }
  }

  /**
   * As written, the writer prints an empty path as `p [ {{label}}`, which the
   * parser cannot read back: the element line fails, and with it every
   * element of the frame after it.
   */
  lemma EmptyPathUnreadable(msg: string, more: string, pal: Palette)
    ensures ElementLine(PathText(msg, []) + more, pal).Err?
  {
    var lab := "{{" + msg + "}}" + ("\n" + more);
    var s := "p " + ("[" + (" " + lab));
    EmptyPathOpen(msg);
    EmptyRegroup(msg, more);
    UnclosedList(lab);
    assert s[0] == 'p';
    NotARect(s, pal);
  }

  lemma EmptyRegroup(msg: string, more: string)
    ensures "p [ {{" + msg + "}}\n" + more == "p " + ("[" + (" " + ("{{" + msg + "}}" + ("\n" + more))))
  {
    var lab := "{{" + msg + "}}";
    assert "p [ {{" == "p " + "[" + " " + "{{";
    assert "}}\n" == "}}" + "\n";
    Assoc("p [ {{" + msg, "}}\n", more);
    Assoc("p [ {{" + msg, "}}", "\n");
    Assoc("p [ {{" + msg + "}}", "\n", more);
    Assoc("p " + "[" + " ", "{{", msg);
    Assoc("p " + "[" + " ", "{{" + msg, "}}");
    Assoc("p " + "[" + " ", lab, "\n" + more);
    Assoc("p " + "[", " ", lab + ("\n" + more));
    Assoc("p ", "[", " " + (lab + ("\n" + more)));
  }

  /** The corrected writer prints `p []` for an empty path, which is read back as an empty labelled polyline. */
  lemma EmptyPathLineRoundTrip(msg: string, more: string, pal: Palette)
    requires Closable(msg)
    ensures ElementLine(PathLine(msg, []) + more, pal).Ok?
    ensures ElementLine(PathLine(msg, []) + more, pal).value == PathElement(msg, [])
    ensures ElementLine(PathLine(msg, []) + more, pal).rest == more
  {
    var tail := " " + ("{{" + msg + "}}" + ("\n" + more));
    assert PathLine(msg, []) + more == "p [" + "]" + " {{" + msg + "}}\n" + more;
    PointsEnd(tail);
    Space0None("]" + tail);
    assert Points("]" + tail) == ([], "]" + tail);
    PathLineOf("]", msg, more, [], pal);
  }

  /* ---------------------------------------------------------------- frames */

  /** One element as the writer holds it: a `path` or a `rect`. */
  datatype Drawn =
    | DrawnPath(msg: string, ps: seq<FPos>)
    | DrawnRect(msg: string, p1: FPos, p2: FPos)

  /** The line written for an element; paths through the corrected writer. */
  function LineText(d: Drawn): string
  {
    match d
    case DrawnPath(msg, ps) => PathLine(msg, ps)
    case DrawnRect(msg, p1, p2) => RectText(msg, p1, p2)
  }

  /** The element a written line stands for. */
  function Expected(d: Drawn): (e: FrameElement)
    ensures HoverMatchesShape(e) && e.hover.Some? && e.hover.value.msg == d.msg
  {
    match d
    case DrawnPath(msg, ps) => PathElement(msg, Meanings(ps))
    case DrawnRect(msg, p1, p2) => RectElement(msg, Meaning(p1), Meaning(p2))
  }

  /** Every element's label can be written between `{{` and `}}`. */
  predicate Writable(ds: seq<Drawn>)
  {
    forall k :: 0 <= k < |ds| ==> Closable(ds[k].msg)
  }

  /** The lines of the elements, one after the other. */
  function LinesText(ds: seq<Drawn>): string
  {
    if ds == [] then "" else LineText(ds[0]) + LinesText(ds[1..])
  }

  function ExpectedAll(ds: seq<Drawn>): (es: seq<FrameElement>)
    ensures |es| == |ds| && forall k :: 0 <= k < |ds| ==> es[k] == Expected(ds[k])
  {
    seq(|ds|, k requires 0 <= k < |ds| => Expected(ds[k]))
  }

  lemma ExpectedAllFrom(ds: seq<Drawn>)
    requires ds != []
    ensures ExpectedAll(ds) == [Expected(ds[0])] + ExpectedAll(ds[1..])
  {
  }

  /** Every written line with a closable label is read back as the element it stands for. */
  lemma LineRoundTrip(d: Drawn, more: string, pal: Palette)
    requires Closable(d.msg)
    ensures ElementLine(LineText(d) + more, pal).Ok?
    ensures ElementLine(LineText(d) + more, pal).value == Expected(d)
    ensures ElementLine(LineText(d) + more, pal).rest == more
  {
    match d
    case DrawnPath(msg, ps) =>
      if ps == [] {
        EmptyPathLineRoundTrip(msg, more, pal);
      } else {
        PathLineRoundTrip(msg, ps, more, pal);
      }
    case DrawnRect(msg, p1, p2) =>
      RectLineRoundTrip(msg, p1, p2, more, pal);
  }

  /** `many0` reads every written line back and stops where no element line follows. */
  lemma {:induction false} LinesRoundTrip(ds: seq<Drawn>, more: string, pal: Palette)
    requires Writable(ds)
    requires ElementLine(more, pal).Err?
    ensures ElementLines(LinesText(ds) + more, pal).0 == ExpectedAll(ds)
    ensures ElementLines(LinesText(ds) + more, pal).1 == more
    decreases |ds|
  {
    if ds == [] {
      assert LinesText(ds) + more == more;
    } else {
      var rest := LinesText(ds[1..]) + more;
      Assoc(LineText(ds[0]), LinesText(ds[1..]), more);
      assert LinesText(ds) + more == LineText(ds[0]) + rest;
      LineRoundTrip(ds[0], rest, pal);
      assert ElementLines(LineText(ds[0]) + rest, pal).0 == [Expected(ds[0])] + ElementLines(rest, pal).0;
      assert ElementLines(LineText(ds[0]) + rest, pal).1 == ElementLines(rest, pal).1;
      LinesRoundTrip(ds[1..], more, pal);
      ExpectedAllFrom(ds);
    }
  }

  lemma HeaderRegroup(a: string, b: string, rest: string)
    ensures "# " + a + " " + b + "\n" + rest == "# " + (a + (" " + (b + ("\n" + rest))))
  {
    Assoc("# " + a + " " + b, "\n", rest);
    Assoc("# " + a + " ", b, "\n" + rest);
    Assoc("# " + a, " ", b + ("\n" + rest));
    Assoc("# ", a, " " + (b + ("\n" + rest)));
  }

  /** A header whose corners read as `q1` and `q2` opens a frame over the rectangle they span. */
  lemma HeaderOf(a: string, b: string, rest: string, q1: Pos2, q2: Pos2, pal: Palette)
    requires ParsePos2(a + (" " + (b + ("\n" + rest)))) == Ok(q1, " " + (b + ("\n" + rest)))
    requires ParsePos2(b + ("\n" + rest)) == Ok(q2, "\n" + rest)
    ensures ParseFrame("# " + a + " " + b + "\n" + rest, pal).Ok?
    ensures ParseFrame("# " + a + " " + b + "\n" + rest, pal).value
         == PaintFrame(ElementLines(rest, pal).0, Some(FromTwoPos(q1, q2)))
    ensures ParseFrame("# " + a + " " + b + "\n" + rest, pal).rest == ElementLines(rest, pal).1
  {
    var second := b + ("\n" + rest);
    var first := a + (" " + second);
    HeaderRegroup(a, b, rest);
    TagThen("# ", first);
    Space0None(first);
    Space0Skips(" ", second);
    Space0None("\n" + rest);
  }

  /** The text `new_frame` and the element lines after it: one frame. */
  function FrameText(min: FPos, max: FPos, ds: seq<Drawn>): string
  {
    HeaderText(min, max) + LinesText(ds)
  }

  /** The frame a written frame stands for. */
  function ExpectedFrame(min: FPos, max: FPos, ds: seq<Drawn>): (f: PaintFrame)
    ensures f.rect == Some(FromTwoPos(Meaning(min), Meaning(max))) && |f.elems| == |ds|
  {
    PaintFrame(ExpectedAll(ds), Some(FromTwoPos(Meaning(min), Meaning(max))))
  }

  /** A written frame is read back as the frame it stands for, up to a text that is not an element line. */
  lemma FrameRoundTrip(min: FPos, max: FPos, ds: seq<Drawn>, more: string, pal: Palette)
    requires Writable(ds)
    requires ElementLine(more, pal).Err?
    ensures ParseFrame(FrameText(min, max, ds) + more, pal).Ok?
    ensures ParseFrame(FrameText(min, max, ds) + more, pal).value == ExpectedFrame(min, max, ds)
    ensures ParseFrame(FrameText(min, max, ds) + more, pal).rest == more
  {
    var lines := LinesText(ds) + more;
    Assoc(HeaderText(min, max), LinesText(ds), more);
    var a := PosText(min);
    var b := PosText(max);
    PosRoundTrip(max, "\n" + lines);
    PosRoundTrip(min, " " + (b + ("\n" + lines)));
    HeaderOf(a, b, lines, Meaning(min), Meaning(max), pal);
    LinesRoundTrip(ds, more, pal);
  }

  /** Neither the end of the text nor the next frame's header is an element line. */
  lemma NotAnElement(s: string, pal: Palette)
    requires s == [] || s[0] == '#'
    ensures ElementLine(s, pal).Err?
  {
    if s != [] {
      NotAPath(s);
      NotARect(s, pal);
    }
  }

  /** A frame as the writer produces it: a `new_frame` and its elements. */
  datatype Written = Written(min: FPos, max: FPos, ds: seq<Drawn>)

  /** The frames one after the other: the whole text a program writes. */
  function FramesText(fs: seq<Written>): string
  {
    if fs == [] then "" else FrameText(fs[0].min, fs[0].max, fs[0].ds) + FramesText(fs[1..])
  }

  function ExpectedFrames(fs: seq<Written>): (out: seq<PaintFrame>)
    ensures |out| == |fs|
    ensures forall k :: 0 <= k < |fs| ==> out[k] == ExpectedFrame(fs[k].min, fs[k].max, fs[k].ds)
  {
    seq(|fs|, k requires 0 <= k < |fs| => ExpectedFrame(fs[k].min, fs[k].max, fs[k].ds))
  }

  lemma ExpectedFramesFrom(fs: seq<Written>)
    requires fs != []
    ensures ExpectedFrames(fs) == [ExpectedFrame(fs[0].min, fs[0].max, fs[0].ds)] + ExpectedFrames(fs[1..])
  {
  }

  /** A frame's text starts with its header's `#`. */
  lemma FrameStart(f: Written, rest: string)
    ensures (FrameText(f.min, f.max, f.ds) + rest)[0] == '#'
  {
    var lines := LinesText(f.ds) + rest;
    Assoc(HeaderText(f.min, f.max), LinesText(f.ds), rest);
    HeaderRegroup(PosText(f.min), PosText(f.max), lines);
  }

  lemma MultiParseEmpty(pal: Palette)
    ensures MultiParse("", pal) == ([], "")
  {
    assert ParseFrame("", pal).Err?;
  }

  /** A frame that can be read is the first of the frames read. */
  lemma MultiParseStep(s: string, pal: Palette)
    requires ParseFrame(s, pal).Ok?
    ensures MultiParse(s, pal).0 == [ParseFrame(s, pal).value] + MultiParse(ParseFrame(s, pal).rest, pal).0
    ensures MultiParse(s, pal).1 == MultiParse(ParseFrame(s, pal).rest, pal).1
  {
  }

  /** The first written frame is read back, and the frames after it are left. */
  lemma FirstFrameRoundTrip(fs: seq<Written>, pal: Palette)
    requires fs != [] && Writable(fs[0].ds)
    ensures ParseFrame(FramesText(fs), pal).Ok?
    ensures ParseFrame(FramesText(fs), pal).value == ExpectedFrame(fs[0].min, fs[0].max, fs[0].ds)
    ensures ParseFrame(FramesText(fs), pal).rest == FramesText(fs[1..])
  {
    var f := fs[0];
    var more := FramesText(fs[1..]);
    assert FramesText(fs) == FrameText(f.min, f.max, f.ds) + more;
    if fs[1..] != [] {
      FrameStart(fs[1], FramesText(fs[1..][1..]));
    }
    NotAnElement(more, pal);
    FrameRoundTrip(f.min, f.max, f.ds, more, pal);
  }

  /** Every written frame is read back, in order, and nothing is left over. */
  lemma {:induction false} FramesRoundTrip(fs: seq<Written>, pal: Palette)
    requires forall k :: 0 <= k < |fs| ==> Writable(fs[k].ds)
    ensures MultiParse(FramesText(fs), pal).0 == ExpectedFrames(fs)
    ensures MultiParse(FramesText(fs), pal).1 == ""
    decreases |fs|
  {
    if fs == [] {
      MultiParseEmpty(pal);
    } else {
      var s := FramesText(fs);
      var more := FramesText(fs[1..]);
      FirstFrameRoundTrip(fs, pal);
      var m := MultiParse(more, pal);
      assert m.0 == ExpectedFrames(fs[1..]) && m.1 == "" by {
        FramesRoundTrip(fs[1..], pal);
      }
      MultiParseStep(s, pal);
      ExpectedFramesFrom(fs);
    }
  }
}
