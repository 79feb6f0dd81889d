/**
 * The colour sub-grammar of the text format: `tag(N)`, `none()`,
 * `named(NAME)` and `turbo(T)`, tried in that order.
 *
 * The colour-name table, the turbo colormap and the f32 HSV-to-RGB
 * conversion are outside this model; they are the three oracles of a
 * `Palette`. What the grammar decides (which input is accepted, which number
 * or name is passed on, the hue and saturation of a tag colour) is modelled.
 */
module ColorParse {
  import opened Wrappers
  import opened Lexer
  import opened Paint
  import Scene

  /** The reciprocal of the golden ratio, as the source writes it. */
  const PhiInv: real := 0.618033988749895

  /** The value of every tag colour. */
  const TagValue: real := 0.95

  datatype Palette = Palette(
    named: string -> Option<Scene.Color>,
    turbo: real -> Scene.Color,
    hsv: (real, real, real) -> Color32)

  /** The fractional part `x - floor(x)`. */
  function Frac(x: real): (f: real)
    ensures 0.0 <= f < 1.0
  {
    x - x.Floor as real
  }

  /** The hue of tag `idx`: the fractional part of `PhiInv * idx * 17`. */
  function TagHue(idx: nat): real
  {
    Frac(PhiInv * idx as real * 17.0)
  }

  /** The saturation passed on for tag `idx`: the raw fraction rescaled by `s * 0.75 + 0.25`. */
  function TagSaturation(idx: nat): real
  {
    Frac(PhiInv * idx as real * 11.0) * (1.0 - 0.25) + 0.25
  }

  /** `parse_tag_color`: `tag`, `(` and `)` with optional spaces around `(` and the integer. */
  function ParseTag(s: string, pal: Palette): (r: Result<Color32>)
    ensures r.Ok? ==> |r.rest| < |s| && |s| >= 3 && s[..3] == "tag"
  {
    var a :- Tag("tag", s);
    var b :- Tag("(", Space0(a.1));
    var n :- U64(Space0(b.1));
    var c :- Tag(")", Space0(n.1));
    Ok(pal.hsv(TagHue(n.0), TagSaturation(n.0), TagValue), c.1)
  }

  /** `parse_none_color`: `none()` is fully transparent. */
  function ParseNone(s: string): (r: Result<Color32>)
    ensures r.Ok? ==> r.value == Transparent && |r.rest| < |s| && |s| >= 6 && s[..6] == "none()"
  {
    var a :- Tag("none()", s);
    Ok(Transparent, a.1)
  }

  /** `parse_named_color`: `named(` letters `)`; an unknown name is black. */
  function ParseNamed(s: string, pal: Palette): (r: Result<Color32>)
    ensures r.Ok? ==> |r.rest| < |s| && |s| >= 6 && s[..6] == "named("
  {
    var a :- Tag("named(", s);
    var n :- Alpha1(a.1);
    var b :- Tag(")", n.1);
    Ok(FromRgb(pal.named(n.0).UnwrapOr(Scene.Color(0, 0, 0))), b.1)
  }

  /** `parse_func_color(name, func)`: `name(` with no space before `(`, spaces allowed around the number. */
  function ParseFunc(name: string, func: real -> Scene.Color, s: string): (r: Result<Color32>)
    ensures r.Ok? ==> |r.rest| < |s| && |s| > |name| && s[..|name|] == name && s[|name|] == '('
  {
    var a :- Tag(name, s);
    var b :- Tag("(", a.1);
    var t :- Float(Space0(b.1));
    var c :- Tag(")", Space0(t.1));
    Ok(FromRgb(func(t.0)), c.1)
  }

  /** `parse_color`: the first alternative that succeeds, in the order tag, none, named, turbo. */
  function ParseColor(s: string, pal: Palette): (r: Result<Color32>)
    ensures r.Ok? ==> |r.rest| < |s|
  {
    var t := ParseTag(s, pal);
    if t.Ok? then t else
    var n := ParseNone(s);
    if n.Ok? then n else
    var m := ParseNamed(s, pal);
    if m.Ok? then m else
    ParseFunc("turbo", pal.turbo, s)
  }

  predicate AllSpaces(sp: string)
  {
    forall i :: 0 <= i < |sp| ==> IsSpace(sp[i])
  }

  /** The four forms start differently, so at most one of them accepts any input. */
  lemma AlternativesExclusive(s: string, pal: Palette)
    ensures ParseTag(s, pal).Ok? ==> ParseNone(s).Err? && ParseNamed(s, pal).Err? && ParseFunc("turbo", pal.turbo, s).Err?
    ensures ParseNone(s).Ok? ==> ParseNamed(s, pal).Err? && ParseFunc("turbo", pal.turbo, s).Err?
    ensures ParseNamed(s, pal).Ok? ==> ParseFunc("turbo", pal.turbo, s).Err?
  {
    var t := ParseTag(s, pal);
    var n := ParseNone(s);
    var m := ParseNamed(s, pal);
    var f := ParseFunc("turbo", pal.turbo, s);
    if t.Ok? {
      assert s[0] == s[..3][0] == 't';
      assert s[1] == s[..3][1] == 'a';
    }
    if n.Ok? {
      assert s[0] == s[..6][0] == 'n';
      assert s[2] == s[..6][2] == 'n';
    }
    if m.Ok? {
      assert s[0] == s[..6][0] == 'n';
      assert s[2] == s[..6][2] == 'm';
    }
    if f.Ok? {
      assert s[0] == s[..5][0] == 't';
      assert s[1] == s[..5][1] == 'u';
    }
  }

  /** `none()` yields the fully transparent colour, and consumes exactly itself. */
  lemma NoneIsTransparent(rest: string, pal: Palette)
    ensures ParseColor("none()" + rest, pal) == Ok(Transparent, rest)
  {
    var s := "none()" + rest;
    TagThen("none()", rest);
    assert ParseTag(s, pal).Err? by { assert s[0] == 'n'; }
  }

  /** A name the table does not know yields opaque black. */
  lemma {:induction false} UnknownNameIsBlack(name: string, rest: string, pal: Palette)
    requires |name| > 0 && AllAlpha(name) && pal.named(name) == None
    ensures ParseColor("named(" + name + ")" + rest, pal) == Ok(Color32(0, 0, 0, 255), rest)
  {
    NamedAccepts(name, rest, pal);
    var s := "named(" + name + ")" + rest;
    assert ParseTag(s, pal).Err? by { assert s[0] == 'n'; }
    assert ParseNone(s).Err? by { assert s[2] == 'm'; }
  }

  lemma {:induction false} NamedAccepts(name: string, rest: string, pal: Palette)
    requires |name| > 0 && AllAlpha(name)
    ensures ParseNamed("named(" + name + ")" + rest, pal)
      == Ok(FromRgb(pal.named(name).UnwrapOr(Scene.Color(0, 0, 0))), rest)
  {
    var r2 := ")" + rest;
    var r1 := name + r2;
    var s := "named(" + r1;
    assert s == "named(" + name + ")" + rest;
    TagThen("named(", r1);
    AlphaRunOf(name, r2);
    assert r1[..|name|] == name && r1[|name|..] == r2;
    assert Alpha1(r1) == Ok(name, r2);
    TagThen(")", rest);
  }

  lemma {:induction false} AlphaRunOf(name: string, rest: string)
    requires AllAlpha(name)
    requires rest == [] || !IsAlpha(rest[0])
    ensures AlphaRun(name + rest) == |name|
    decreases |name|
  {
    if name != [] {
      assert (name + rest)[1..] == name[1..] + rest;
      AlphaRunOf(name[1..], rest);
    }
  }

  /** A name must follow `named(` directly: a space there makes the form fail. */
  lemma NamedRejectsSpace(rest: string, pal: Palette)
    ensures ParseNamed("named( " + rest, pal).Err?
  {
    var s := "named( " + rest;
    TagThen("named(", " " + rest);
    assert s == "named(" + (" " + rest);
  }

  /**
   * The tag form accepts spaces around `(` and around the integer, and the
   * colour it yields depends only on the integer.
   */
  lemma {:induction false} TagDependsOnlyOnInteger(sp1: string, sp2: string, ds: string, sp3: string, rest: string, pal: Palette)
    requires AllSpaces(sp1) && AllSpaces(sp2) && AllSpaces(sp3)
    requires |ds| > 0 && AllDigits(ds) && ValueOf(ds) < 0x1_0000_0000_0000_0000
    ensures ParseColor("tag" + sp1 + "(" + sp2 + ds + sp3 + ")" + rest, pal)
      == Ok(pal.hsv(TagHue(ValueOf(ds)), TagSaturation(ValueOf(ds)), TagValue), rest)
  {
    var r6 := ")" + rest;
    var r5 := sp3 + r6;
    var r4 := ds + r5;
    var r3 := sp2 + r4;
    var r2 := "(" + r3;
    var r1 := sp1 + r2;
    var s := "tag" + r1;
    assert s == "tag" + sp1 + "(" + sp2 + ds + sp3 + ")" + rest;
    TagThen("tag", r1);
    Space0Skips(sp1, r2);
    TagThen("(", r3);
    assert r4[0] == ds[0];
    Space0Skips(sp2, r4);
    assert r5[0] == if sp3 == [] then ')' else sp3[0];
    U64Of(ds, r5);
    Space0Skips(sp3, r6);
    TagThen(")", rest);
    assert ParseTag(s, pal) == Ok(pal.hsv(TagHue(ValueOf(ds)), TagSaturation(ValueOf(ds)), TagValue), rest);
  }

  /** The hue and the raw saturation are fractions in [0, 1); the saturation passed on lies in [0.25, 1). */
  lemma TagColourRanges(idx: nat)
    ensures 0.0 <= TagHue(idx) < 1.0
    ensures 0.25 <= TagSaturation(idx) < 1.0
  {
    var f := Frac(PhiInv * idx as real * 11.0);
    assert 0.0 <= f < 1.0;
    assert 0.0 <= f * 0.75 < 0.75;
  }

  /** `turbo` must be followed directly by `(`. */
  lemma TurboRejectsSpaceBeforeParen(rest: string, pal: Palette)
    ensures ParseColor("turbo (" + rest, pal).Err?
  {
    var s := "turbo (" + rest;
    TurboOnlyByFunc(s, pal);
    assert s[5] == ' ';
  }

  /** An input starting with `tu` is not a tag, none or named colour. */
  lemma TurboOnlyByFunc(s: string, pal: Palette)
    requires |s| >= 2 && s[0] == 't' && s[1] == 'u'
    ensures ParseColor(s, pal) == ParseFunc("turbo", pal.turbo, s)
  {
    if |s| >= 3 {
      assert s[..3][1] == 'u';
    }
    if |s| >= 6 {
      assert s[..6][0] == 't';
    }
  }

  /** `name(` then spaces, a number, spaces and `)`: the function applied to that number. */
  lemma {:induction false} FuncAcceptsSpacedNumber(name: string, func: real -> Scene.Color, sp1: string, t: string, sp2: string, rest: string, v: real)
    requires AllSpaces(sp1) && AllSpaces(sp2)
    requires |t| > 0 && !IsSpace(t[0])
    requires Float(t) == Ok(v, sp2 + ")" + rest)
    ensures ParseFunc(name, func, name + "(" + sp1 + t) == Ok(FromRgb(func(v)), rest)
  {
    var r1 := sp1 + t;
    var r0 := "(" + r1;
    var s := name + r0;
    assert s == name + "(" + sp1 + t;
    TagThen(name, r0);
    TagThen("(", r1);
    Space0Skips(sp1, t);
    Space0Skips(sp2, ")" + rest);
    assert sp2 + ")" + rest == sp2 + (")" + rest);
    TagThen(")", rest);
  }

  /** `turbo(` then spaces, a number, spaces and `)`: the colormap sampled at that number. */
  lemma TurboAcceptsSpacedNumber(sp1: string, t: string, sp2: string, rest: string, pal: Palette, v: real)
    requires AllSpaces(sp1) && AllSpaces(sp2)
    requires |t| > 0 && !IsSpace(t[0])
    requires Float(t) == Ok(v, sp2 + ")" + rest)
    ensures ParseColor("turbo(" + sp1 + t, pal) == Ok(FromRgb(pal.turbo(v)), rest)
  {
    FuncAcceptsSpacedNumber("turbo", pal.turbo, sp1, t, sp2, rest, v);
    var s := "turbo(" + sp1 + t;
    assert s == "turbo" + "(" + sp1 + t;
    TurboOnlyByFunc(s, pal);
  }
}
