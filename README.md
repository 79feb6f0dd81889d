# egui_visualizer in Dafny

egui_visualizer is a small visual-debugging toolkit. A program under study
writes a sequence of frames. Each frame holds a canvas rectangle and a list
of shapes, and shapes can carry a label. A viewer then shows the frames one
at a time. The user can slide or arrow between frames, pan and zoom, and see
the label of the shape under the pointer as a tooltip.

Frames travel in one of two forms:

- **Text**: one header line `# (x,y) (x,y)`, then one line per element,
  either a path `p [(x,y),...] {{label}}` or a rectangle
  `r (x,y) (x,y) {{label}}`. C++ programs print it with `frame.hpp`, and
  `src/parser.rs` reads it with nom parser combinators.
- **Scene**: values built with the by-value builders of `src/lib.rs`
  (paths, circles, texts, frames), which the viewer in `visualizer/` loads.

This project models these parts:

- **Text grammar** (`lexer.dfy`, `color.dfy`, `text_parser.dfy`). Every
  parser is a function from a string to `Ok(value, rest)` or `Err`, the
  shape of nom's `IResult`. This covers the primitives the grammar uses
  (`tag`, `space0`, `newline`, `anychar`, `alpha1`, `u64`, `float`), the
  label scanner `parsemsg`, positions, point lists, the three element kinds,
  frames, `multi_parse`, and the colour grammar of `src/parser/color.rs`.
- **C++ printer** (`printer.dfy`). `frame.hpp`'s stream operators write the
  text grammar. Coordinates are kept as integers counting millionths, which
  is what `std::fixed` prints.
- **Round trip** (`roundtrip.dfy`). Any sequence of frames the printer
  writes is read back by `multi_parse` as exactly the frames that were
  drawn, with nothing left over. This needs two conditions. No path may be
  empty: an empty path prints as a line the parser rejects (see Findings).
  No label may contain `}}` or end in `}`: the label scanner stops at the
  first `}}`, so such a label is cut short (`Writable` states both
  conditions).
- **Scene model** (`scene.dfy`). The entities of `src/lib.rs` and their
  builders, with order and commutation properties.
- **Conversion** (`convert.dfy`). How the viewer turns scene frames into
  egui shapes and hover regions (`PaintFrame::from_file` after decoding).
- **Hit testing** (`hover.dfy`). The hover test of each region kind, given
  as a specification and as the source's loops (`HoverCondition::check`).
  The lemmas say what each test means in canvas terms.
- **Screen transform** (`geometry.dfy`, `transform.dfy`). The part of
  `emath` the viewer uses, and `shape_transform`.
- **Viewer state** (`viewer.dfy`). The viewer state `EguiSample`
  (`visualizer/src/main.rs`, and the same logic in `visualizer/src/app.rs`)
  as a class. It covers the slider, reset, load, zoom, hover scan, drag and
  arrow keys, and one whole `update`.
- **TSP demo** (`tsp.dfy`). The 2-opt demo `cpp/tsp.cpp`, kept on an array
  in place. Its moves are proved to be permutations that reverse one block
  of the tour, and what `draw` prints is proved to read back.

Where the code behaves in a way a reader might not expect, the model follows the code:

- `multi_parse` returns the text it cannot read as the remainder and does
  not fail on it.
- `Rect::contains` is closed, so a pointer on the border hits.
- Zoom with Z or X held scales the two corners of the view by different
  factors, not the two axes. `ZoomWithZIsCornerWise` shows that the height
  changes under Z.
- An error message from a failed load is overwritten in the same `update`
  by the debug text of the drag position.
- The visualizer reads an alpha channel from scene colours, but the scene
  `Color` of `src/lib.rs` has none. The conversion uses `from_rgb`, which is
  opaque.
- A closed path of one vertex is hit everywhere
  (`ClosedPathSingleVertexAlwaysHits`). A concave polygon is hit at some
  points outside it (`ConcaveFalsePositive`). These results record what the
  code does.

## Model

| member | source | states |
|---|---|---|
| Geometry.FromTwoPos | visualizer/src/parser.rs:155 | the rectangle spanned by two corners is normalized, contains both, and takes its coordinates from them |
| Geometry.FromTwoPosSymmetric | src/parser.rs:165 | the spanned rectangle does not depend on the order of the two corners |
| Geometry.FromTwoPosOfNormalized | visualizer/src/parser.rs:155 | spanning a normalized rectangle's own corners gives it back |
| Geometry.SetCenter | visualizer/src/main.rs:159 | `set_center` moves the centre to the target and keeps the size |
| Geometry.RectTransform.Inverse | visualizer/src/main.rs:106 | the inverse of an invertible transform is invertible |
| Geometry.InverseLaw | visualizer/src/main.rs:106 | `from_screen` undoes `to_screen` and the other way round |
| Geometry.FromTo | visualizer/src/main.rs:100-105 | `from_to` maps the view's corners onto the target's corners, with the ratios of the side lengths as scale |
| Geometry.ApplyDifference | visualizer/src/parser.rs:55 | a transform scales differences per axis and ignores the offset |
| Scene.DefaultStroke | src/lib.rs:74-81 | the default stroke is black and one unit wide |
| Scene.Path.New | src/lib.rs:91-93 | a new path has no vertices, no fill and the default stroke |
| Scene.Path.FromVertices | src/lib.rs:94-96 | exactly the given vertices, no fill and the default stroke |
| Scene.Path.AddPos | src/lib.rs:97-100 | appends the vertex at the end and changes nothing else |
| Scene.Path.Close | src/lib.rs:101-104 | sets the fill and keeps the vertices and stroke |
| Scene.Path.WithStroke | src/lib.rs:105-108 | sets the stroke and keeps the vertices and fill |
| Scene.Path.ToElement | src/lib.rs:109-114 | wraps the path as an unlabelled element |
| Scene.Circle.New | src/lib.rs:126-128 | a circle with the given centre and radius, without fill or stroke |
| Scene.Circle.Fill | src/lib.rs:129-132 | sets the fill and keeps everything else |
| Scene.Circle.WithStroke | src/lib.rs:133-136 | sets the stroke and keeps everything else |
| Scene.Circle.ToElement | src/lib.rs:137-142 | wraps the circle as an unlabelled element |
| Scene.Text.New | src/lib.rs:154-156 | a text with the given content, size and position, in black |
| Scene.Text.WithColor | src/lib.rs:157-160 | sets the colour and keeps everything else |
| Scene.Text.ToElement | src/lib.rs:161-166 | wraps the text as an unlabelled element |
| Scene.Element.WithMsg | src/lib.rs:183-186 | sets the label and keeps the shape |
| Scene.Frame.New | src/lib.rs:197-203 | an empty frame with the given corners |
| Scene.Frame.AddElement | src/lib.rs:204-207 | appends the element at the end and keeps the corners |
| Scene.Frames.New | src/lib.rs:216-220 | no frames |
| Scene.Frames.AddFrame | src/lib.rs:221-224 | appends the frame at the end |
| Scene.AddAllIsFromVertices | src/lib.rs:94-100 | adding vertices one by one to a new path gives `from_vertices` of them |
| Scene.AddElementsKeepsOrder | src/lib.rs:204-207 | adding elements one by one gives the old elements followed by the new ones, in order |
| Scene.AddFramesKeepsOrder | src/lib.rs:221-224 | adding frames one by one keeps their order |
| Scene.CloseStrokeCommute | src/lib.rs:101-108 | `close` and `stroke` can be applied in either order |
| Scene.CircleFillStrokeCommute | src/lib.rs:129-136 | `fill` and `stroke` on a circle can be applied in either order |
| Scene.WithMsgLastWins | src/lib.rs:183-186 | a second label replaces the first |
| Paint.FromRgb | visualizer/src/parser.rs:146 | the colour keeps its channels and is opaque |
| Paint.Line | src/parser.rs:157 | `Shape::line` is an open, unfilled path through exactly the given points |
| Paint.DefaultFrame | visualizer/src/parser.rs:100-107 | the default frame has no elements and no rectangle (`Rect::NOTHING`) |
| HoverCheck.CheckPath | visualizer/src/parser.rs:22-38 | the segment loop answers the open-path hit specification, and a path of fewer than two points is never hit; the scene crate's own path arm (src/parser.rs:27-43) is the same loop |
| HoverCheck.CheckClosedPath | visualizer/src/parser.rs:39-53 | the triple loop answers the closed-path hit specification, and an empty path is never hit |
| HoverCheck.Check | visualizer/src/parser.rs:17-59 | `check` agrees with the hit specification of every region kind; the scene crate's `HoverCondition::check` (src/parser.rs:22-47) has the same rectangle and path arms and no circle arm |
| HoverCheck.Hits | visualizer/src/parser.rs:17-59 | the hit specification, one arm per region kind; `Check` computes it |
| HoverCheck.RectHit | visualizer/src/parser.rs:19-21 | the pointer lies in the rectangle spanned by the mapped corners; in canvas terms this is `RectHitMeansCanvasContainment` |
| HoverCheck.SegmentHit | visualizer/src/parser.rs:27-35 | the segment test; its meaning is `SegmentHitMeaning` and `BeyondEndsNeverHits` |
| HoverCheck.PathHit | visualizer/src/parser.rs:22-38 | some consecutive pair of mapped vertices forms a segment that hits; `CheckPath` computes it |
| HoverCheck.ClosedPathHit | visualizer/src/parser.rs:39-53 | the three-sign test holds at some vertex; `CheckClosedPath` computes it and `TriangleHit` gives its meaning for a triangle |
| HoverCheck.CircleHit | visualizer/src/parser.rs:54-57 | the per-axis unit-disc test; in canvas terms this is `CircleHitMeansCanvasDisc` |
| HoverCheck.RectHitMeansCanvasContainment | visualizer/src/parser.rs:19-21 | with a positive scale, a rectangle is hit iff the pointer mapped back to the canvas lies in it |
| HoverCheck.BeyondEndsNeverHits | visualizer/src/parser.rs:27-29 | a point on the segment's line beyond either end is never hit |
| HoverCheck.SegmentHitMeaning | visualizer/src/parser.rs:27-35 | a segment is hit iff the projection falls within it and the squared distance to the line is under 10 squared |
| HoverCheck.ProjectionHit | visualizer/src/parser.rs:32-35 | for a segment of positive length, the squared distance from the pointer to its projection on the line is under 10 squared iff the squared cross product is under 100 times the squared length |
| HoverCheck.ProjectionDistance | visualizer/src/parser.rs:32-33 | the distance to the projected point equals the cross-product distance to the line |
| HoverCheck.ClosedPathEmpty | visualizer/src/parser.rs:43-52 | an empty closed path is never hit |
| HoverCheck.ClosedPathSingleVertexAlwaysHits | visualizer/src/parser.rs:44-50 | a closed path of one vertex is hit at every pointer position |
| HoverCheck.TripleAgreesRotate | visualizer/src/parser.rs:45-48 | the three-sign test does not depend on which vertex of the triple comes first |
| HoverCheck.TriangleHit | visualizer/src/parser.rs:39-53 | a non-degenerate triangle is hit iff the pointer is inside it on its orientation's side of all three edges |
| HoverCheck.ConcaveFalsePositive | visualizer/src/parser.rs:39-53 | a concave quadrilateral is hit at a point outside it |
| HoverCheck.CircleHitMeansCanvasDisc | visualizer/src/parser.rs:54-57 | a circle is hit iff the pointer mapped back to the canvas lies in the closed disc |
| HoverCheck.CircleHitAt | visualizer/src/parser.rs:54-57 | at the screen image of a canvas point, the per-axis unit-disc test holds iff that point lies within the radius of the centre |
| HoverCheck.CircleCentreHits | visualizer/src/parser.rs:54-57 | the screen image of the centre always hits |
| Lexer.Tag | src/parser.rs:115 | `tag` succeeds iff the input starts with the tag, and then consumes exactly it |
| Lexer.Newline | src/parser.rs:89 | `newline` succeeds iff the input starts with a line feed, and consumes it |
| Lexer.AnyChar | src/parser.rs:110-113 | `anychar` fails only on empty input and returns the first character |
| Lexer.Space0Skips | src/parser.rs:139 | `space0` consumes a run of blanks and stops at the first other character |
| Lexer.Space0 | src/parser.rs:139 | `space0` never fails and never lengthens the input; what it skips is `Space0Skips` |
| Lexer.TagThen | src/parser.rs:89 | a tag followed by any text is accepted and leaves that text |
| Lexer.U64Of | src/parser/color.rs:18 | `u64` reads a maximal run of digits as its decimal value when it fits in 64 bits |
| Lexer.U64 | src/parser/color.rs:18 | a value read is below 2^64 and consumes input; which value is `U64Of` |
| Lexer.Alpha1 | src/parser/color.rs:35 | `alpha1` consumes at least one character |
| Lexer.FractionOf | src/parser.rs:139 | the digits after the point are read as that many decimal places |
| Lexer.UnsignedDecimal | src/parser.rs:139 | `digits.digits` is read as the integer part plus the scaled fraction |
| Lexer.FloatOfDecimal | src/parser.rs:139 | `float` reads an unsigned decimal number as its value |
| Lexer.FloatOfInteger | src/parser.rs:139 | `float` reads digits without a point as that integer |
| Lexer.FloatNegative | src/parser.rs:139 | a leading minus negates the value read and consumes the same rest |
| Lexer.FloatUnsigned | src/parser.rs:139 | without a sign, `float` is the unsigned reader |
| Lexer.Float | src/parser.rs:139 | a number read consumes input; which value is `FloatOfDecimal`, `FloatOfInteger`, `FloatNegative` and `FloatUnsigned` |
| Lexer.NatToDigitsValue | cpp/tsp.cpp:36 | `to_string` of a number reads back as that number |
| Lexer.PaddedValue | frame.hpp:14 | a zero-padded fraction of fixed width reads back as its value |
| ColorParse.Frac | src/parser/color.rs:23-24 | `h - floor(h)` lies in `[0, 1)` |
| ColorParse.ParseTag | src/parser/color.rs:15-27 | a tag colour is read only from input starting with `tag`, and consumes input |
| ColorParse.ParseNone | src/parser/color.rs:29-32 | `none()` gives the transparent colour |
| ColorParse.ParseNamed | src/parser/color.rs:34-38 | a named colour is read only from input starting with `named(` |
| ColorParse.ParseFunc | src/parser/color.rs:40-46 | a function colour is read only from input starting with the name and `(` |
| ColorParse.ParseColor | src/parser/color.rs:48-52 | a successful colour parse consumes input |
| ColorParse.AlternativesExclusive | src/parser/color.rs:49-51 | at most one of the four alternatives accepts any input |
| ColorParse.NoneIsTransparent | src/parser/color.rs:29-32 | `none()` followed by anything gives transparent and leaves the rest |
| ColorParse.UnknownNameIsBlack | src/parser/color.rs:36 | an unknown colour name gives opaque black |
| ColorParse.NamedAccepts | src/parser/color.rs:34-38 | `named(word)` gives the palette's colour for the word, or black |
| ColorParse.NamedRejectsSpace | src/parser/color.rs:35 | no blank is allowed after `named(` |
| ColorParse.TagDependsOnlyOnInteger | src/parser/color.rs:16-26 | the tag colour depends only on the integer, not on the blanks around it |
| ColorParse.TagColourRanges | src/parser/color.rs:21-25 | the hue lies in `[0, 1)` and the saturation in `[0.25, 1)` |
| ColorParse.TurboRejectsSpaceBeforeParen | src/parser/color.rs:42 | no blank is allowed between `turbo` and `(` |
| ColorParse.TurboOnlyByFunc | src/parser/color.rs:49-51 | input starting with `tu` is decided by the turbo alternative alone |
| ColorParse.FuncAcceptsSpacedNumber | src/parser/color.rs:40-46 | `name( number )` with blanks gives the function's colour at that number |
| ColorParse.TurboAcceptsSpacedNumber | src/parser/color.rs:50 | `turbo( number )` gives the turbo colour at that number |
| TextParser.LabelBody | src/parser.rs:122-133 | the scan stops after `}}` and returns exactly the characters before it |
| TextParser.Label | src/parser.rs:119-135 | a label consumes at least the four brace characters |
| TextParser.ParseLabel | src/parser.rs:119-135 | the character loop of `parsemsg` computes the label function |
| TextParser.OptLabel | src/parser.rs:155 | an optional label is either the label read or nothing, with the input untouched |
| TextParser.LabelBodyOf | src/parser.rs:122-133 | any text with no `}}` inside and no `}` at its end, followed by `}}`, is read back whole |
| TextParser.LabelBodyShape | src/parser.rs:122-133 | whatever the scan returns has no `}}` inside and no `}` at its end, and the input is that text, `}}` and the rest |
| TextParser.LabelRoundTrip | src/parser.rs:119-135 | `{{m}}` reads back as `m` iff `m` has no `}}` inside and no `}` at its end |
| TextParser.ParsePos2 | src/parser.rs:137-141 | a position is read only from input starting with `(`, and consumes input |
| TextParser.Points | src/parser.rs:148 | `separated_list0` gives no points iff the first position fails, and then consumes nothing |
| TextParser.ParseVecPos2 | src/parser.rs:143-152 | a successful point list consumes input |
| TextParser.ParsePath | src/parser.rs:154-161 | a line reads iff it starts `p ` and a point list follows; the shape holds exactly those points; the hover is present iff a label follows the points, and then is a path region over the points carrying that label |
| TextParser.ParseRect | src/parser.rs:163-171 | a line reads iff it starts with `r` and two positions follow, each after optional blanks; it gives a transparent rectangle with a black outline spanning the two points read; the hover is present iff a label follows them, and then carries that label over the same rectangle |
| TextParser.ParseRectFill | src/parser.rs:173-181 | a line reads iff it starts with `rf`, two positions follow and then a colour, each after optional blanks; it gives a stroke-less rectangle spanning the two points read, filled with the colour read after them; the hover is present iff a label follows the colour, and then carries that label over the same rectangle |
| TextParser.ParseElement | src/parser.rs:183-190 | every element read has a hover region that matches its shape |
| TextParser.ElementLine | src/parser.rs:92-96 | an element line read consumes input and its hover region matches its shape; that printed lines read back is `LineRoundTrip` |
| TextParser.ElementLines | src/parser.rs:91-96 | the loop stops at the first line that is not an element, and every element read is well formed |
| TextParser.ParseFrame | src/parser.rs:87-102 | a frame reads iff the text starts with `# `, two positions follow, each after optional blanks, and then a line feed after optional blanks; its rectangle is `from_two_pos` of the two positions, and its elements and remainder are what the element-line loop reads after the line feed; the rectangle is normalized and the loop stops at a non-element line |
| TextParser.MultiParse | src/parser.rs:83-86 | `many0` stops where no frame can be read, and every frame read has a normalized rectangle |
| TextParser.FilledIsNotOutline | src/parser.rs:164 | the outline alternative rejects `rf` lines |
| TextParser.FilledRectangleAlternative | src/parser.rs:183-190 | an `rf` line is decided by the filled-rectangle alternative |
| FramePrinter.Value | frame.hpp:13-15 | a printed coordinate is negative iff its millionths are; that it reads back exactly is `FixedRoundTrip` |
| FramePrinter.FixedText | frame.hpp:13-15 | `std::fixed` text of a coordinate: sign, whole part, `.` and six digits; that it reads back as the coordinate is `FixedRoundTrip` |
| FramePrinter.PosText | frame.hpp:13-15 | `(x,y)`; that it reads back as the point is `PosRoundTrip` |
| FramePrinter.HeaderText | frame.hpp:24-26 | `# `, the two corners and a line feed; that it reads back as the corners is `HeaderOf` |
| FramePrinter.Items | frame.hpp:38-40 | one item per point; that the items read back as the points is `PointsRoundTrip` |
| FramePrinter.PathBracket | frame.hpp:38-40 | the point list of a non-empty path ends in `]` |
| FramePrinter.EmptyPathOpen | frame.hpp:36-42 | as written, an empty path prints `p [ {{m}}` with the `[` left open |
| FramePrinter.PathText | frame.hpp:36-42 | `p [`, the items, ` {{label}}` and a line feed, with no `]` for an empty path; what it reads back as is `PathLineRoundTrip` and `EmptyPathUnreadable` |
| FramePrinter.PathLine | frame.hpp:36-42 | the corrected path printer agrees with `frame.hpp` whenever the path has a point |
| FramePrinter.PathBuilder.constructor | frame.hpp:28-30 | a new path has the label and no points |
| FramePrinter.PathBuilder.Add | frame.hpp:31-33 | `add` appends the point at the end |
| FramePrinter.PathBuilder.Write | frame.hpp:36-42 | the stream loop writes the path's text |
| FramePrinter.RectText | frame.hpp:50-52 | `r`, the two corners and the label; that it reads back as the rectangle and label is `RectLineRoundTrip` |
| RoundTrip.UnsignedRoundTrip | frame.hpp:14 | a non-negative coordinate printed with `std::fixed` is read back by `float` exactly |
| RoundTrip.FixedRoundTrip | frame.hpp:13-15 | any printed coordinate is read back exactly, including negative ones |
| RoundTrip.PosRoundTrip | frame.hpp:13-15 | a printed position is read back by `parse_pos2` as the same point |
| RoundTrip.PointsRoundTrip | frame.hpp:38-40 | a printed non-empty point list is read back as the same points, stopping at `]` |
| RoundTrip.PathElement | src/parser.rs:154-161 | the element a labelled path line should give: a line with a path hover carrying the label |
| RoundTrip.PathLineRoundTrip | frame.hpp:36-42 | a printed non-empty path line is read back as its points and label |
| RoundTrip.RectElement | src/parser.rs:163-171 | the element a rectangle line should give: the spanned rectangle with a rectangle hover |
| RoundTrip.RectLineRoundTrip | frame.hpp:50-52 | a printed rectangle line is read back as its rectangle and label |
| RoundTrip.NotAPath | src/parser.rs:155 | a line not starting with `p` is no path |
| RoundTrip.NotARect | src/parser.rs:164 | a line not starting with `r` is no rectangle |
| RoundTrip.UnclosedList | src/parser.rs:143-152 | a point list cut off by a label is rejected |
| RoundTrip.EmptyPathUnreadable | frame.hpp:36-42 | as written, a printed empty path is rejected by the parser |
| RoundTrip.EmptyPathLineRoundTrip | frame.hpp:36-42 | the corrected printer's empty path is read back as an empty path with its label |
| RoundTrip.LineRoundTrip | frame.hpp:36-52 | any printed element line is read back as the element drawn |
| RoundTrip.LinesRoundTrip | src/parser.rs:91-96 | printed element lines are read back in order as the elements drawn |
| RoundTrip.HeaderOf | src/parser.rs:88-90 | a printed header is read as the frame's two corners |
| RoundTrip.FrameRoundTrip | frame.hpp:24-26 | a printed frame is read back as its rectangle and its elements, in order |
| RoundTrip.NotAnElement | src/parser.rs:93 | a header line or the end of input is no element line |
| RoundTrip.FramesRoundTrip | src/parser.rs:83-86 | everything printed is read back by `multi_parse` as the frames drawn, with nothing left over |
| Convert.ToPoints | visualizer/src/parser.rs:117 | vertices are converted one by one, in order |
| Convert.FillColor | visualizer/src/parser.rs:123 | a missing fill becomes transparent, and a present one its opaque colour |
| Convert.ToStroke | visualizer/src/parser.rs:124 | the stroke keeps its width and colour |
| Convert.CircleStroke | visualizer/src/parser.rs:135 | a circle without stroke gets egui's default, empty stroke |
| Convert.ConvertElement | visualizer/src/parser.rs:112-152 | text never hovers; a labelled shape hovers over exactly the geometry drawn, with its label |
| Convert.ConvertFrame | visualizer/src/parser.rs:153-156 | elements are converted in order, and the rectangle is spanned by the two corners |
| Convert.ConvertFrames | visualizer/src/parser.rs:112-157 | frames are converted in order, each with a rectangle |
| Convert.ClosedIffFilled | visualizer/src/parser.rs:118-126 | a path is drawn closed iff it has a fill, and transparent inside iff it has none |
| Convert.TextNeverHovers | visualizer/src/parser.rs:140-150 | a labelled text gets no hover |
| Convert.LabelledOpenPath | visualizer/src/parser.rs:116-128 | a labelled open path hovers with the segment test over its vertices |
| Convert.LabelledClosedPath | visualizer/src/parser.rs:116-128 | a closed path is drawn closed and filled and hovers with the polygon test |
| Convert.NewCircle | visualizer/src/parser.rs:129-139 | a new labelled circle is transparent, without stroke, and hovers over its disc |
| Convert.AddElementConverts | visualizer/src/parser.rs:113-156 | conversion commutes with adding an element |
| Convert.AddFrameConverts | visualizer/src/parser.rs:112-157 | conversion commutes with adding a frame |
| Transform.MapPoints | visualizer/src/transform.rs:8 | every point is mapped, in order |
| Transform.Mapped | visualizer/src/transform.rs:4-27 | the geometry is mapped and the style kept |
| Transform.ShapeTransform | visualizer/src/transform.rs:4-27 | as written: every shape gets a result with the same style, points and rectangle corners are mapped, a circle's centre is mapped and its radius is multiplied by `scaleLen`, the length of the scale vector `(sx, sy)` |
| Transform.ShapeTransformFixed | visualizer/src/transform.rs:18-23 | corrected: a circle's centre is mapped and its radius is multiplied by `geoScale`, whose square is `sx · sy` |
| Transform.RectStaysNormalized | visualizer/src/transform.rs:12-17 | under a positive scale a normalized rectangle stays normalized |
| Transform.DrawnCircleTooLarge | visualizer/src/transform.rs:18-23 | as written, even the identity draws a circle too large: a point outside the hover disc is inside the drawing |
| Transform.FixedCircleIsHoverRegion | visualizer/src/transform.rs:18-23 | corrected, under a uniform scale the drawn disc is exactly the hover region |
| Transform.FixedIdentity | visualizer/src/transform.rs:18-23 | corrected, the identity leaves a circle as it is |
| Viewer.SliderIndex | visualizer/src/main.rs:45-52 | the slider value is clamped to `0 ..= max(len, 1) - 1` |
| Viewer.NextIndex | visualizer/src/main.rs:168-173 | the right arrow advances only while a next frame exists; `ArrowsKeepIndexOk` and `ArrowsUndo` state what it preserves and undoes |
| Viewer.PrevIndex | visualizer/src/main.rs:174-179 | the left arrow steps back only above zero; `ArrowsKeepIndexOk` and `ArrowsUndo` state what it preserves and undoes |
| Viewer.SliderInRange | visualizer/src/main.rs:45-52 | after the slider the index selects a frame, or is 0 when there is none |
| Viewer.ArrowsKeepIndexOk | visualizer/src/main.rs:168-179 | the arrow keys keep the index valid |
| Viewer.ArrowsUndo | visualizer/src/main.rs:168-179 | a right arrow that moved is undone by a left arrow, and the other way round |
| Viewer.ZoomFactors | visualizer/src/main.rs:129-133 | Z held scales only the `min` corner, X only the `max` corner, otherwise both; the effect on the view is in `ZoomNeutral` and `ZoomKeepsPoint` |
| Viewer.Zoomed | visualizer/src/main.rs:136-139 | the zoom about a canvas point; that it keeps the view normalized and the point inside is `ZoomKeepsPoint` |
| Viewer.ZoomNeutral | visualizer/src/main.rs:127-141 | without a zoom gesture the view does not change |
| Viewer.ZoomKeepsPoint | visualizer/src/main.rs:135-139 | zooming in or out keeps the view normalized and the point under the pointer inside it |
| Viewer.UniformZoomScalesSize | visualizer/src/main.rs:127-141 | a zoom with no key held divides both sides by the zoom factor |
| Viewer.ZoomWithZIsCornerWise | visualizer/src/main.rs:129-139 | with Z held the height changes too, because the corners are scaled, not the axes |
| Viewer.MaxMulFits | visualizer/src/main.rs:91-95 | the frame scaled by `max_mul` fits the panel and fills it on one axis |
| Viewer.MaxMul | visualizer/src/main.rs:91-95 | the smaller of the two panel-to-frame ratios; that the scaled frame fits is `MaxMulFits` |
| Viewer.Panned | visualizer/src/main.rs:159 | a drag keeps the view's size and moves its centre back by the canvas delta |
| Viewer.PanBack | visualizer/src/main.rs:157-160 | dragging back restores the view |
| Viewer.LastHitMeaning | visualizer/src/main.rs:142-154 | a tooltip is shown iff some element is hit, and then it is the label of the last one hit |
| Viewer.LastHit | visualizer/src/main.rs:142-154 | the label of the last element hit, or none; its meaning is `LastHitMeaning` |
| Viewer.EguiSample.constructor | visualizer/src/main.rs:26-37 | the initial state: no frames, index 0, empty message, no drag, view `(0,0)-(100,100)` |
| Viewer.EguiSample.Current | visualizer/src/main.rs:87-88 | the selected frame, or the default frame when the index is out of range |
| Viewer.EguiSample.Slide | visualizer/src/main.rs:45-52 | the index becomes the clamped slider value and nothing else changes |
| Viewer.EguiSample.ResetView | visualizer/src/main.rs:54-56 | the view becomes the current frame's rectangle when a frame is selected |
| Viewer.EguiSample.Load | visualizer/src/main.rs:67-81 | a decoded file replaces the frames, selects frame 0 and shows its rectangle; a failure only sets the message |
| Viewer.EguiSample.Zoom | visualizer/src/main.rs:127-141 | the view is zoomed about the pointer mapped back to the canvas |
| Viewer.EguiSample.HoverScan | visualizer/src/main.rs:142-154 | the reverse scan returns the label of the last element hit |
| Viewer.EguiSample.Drag | visualizer/src/main.rs:157-166 | a continued drag pans the view, the drag position is the interaction, and the message shows it |
| Viewer.EguiSample.ArrowRight | visualizer/src/main.rs:168-173 | the right arrow advances the index and keeps it valid |
| Viewer.EguiSample.ArrowLeft | visualizer/src/main.rs:174-179 | the left arrow steps back and keeps it valid |
| Viewer.EguiSample.Select | visualizer/src/main.rs:44-84 | the side panel: the frames become those of a decoded file, the index the loaded frame 0 or the clamped slider value, and the view the reset and loaded rectangles in that order; the drag is kept |
| Viewer.EguiSample.Pointer | visualizer/src/main.rs:126-166 | the canvas: the view is zoomed about the pointer and then panned by a continued drag; the tooltip is the label of the last element of the current frame hit, none without hover; frames and index are kept |
| Viewer.EguiSample.Update | visualizer/src/main.rs:42-180 | one update: frames as loaded, the index chosen by slider or load and then moved by the arrows, the view after reset, load, zoom and drag, the drag recorded, and the tooltip taken from the frame shown before the arrows; the state stays valid |
| Tsp.Identity | cpp/tsp.cpp:18-19 | `iota` fills positions with their own index |
| Tsp.PermutationInRange | cpp/tsp.cpp:18-19 | every entry of a permutation names a city |
| Tsp.InitPerm | cpp/tsp.cpp:18-19 | the initial tour is the identity permutation |
| Tsp.RotateLeftAt | cpp/tsp.cpp:70 | after rotating by `i`, position `k` holds what was at `(k + i) mod N` |
| Tsp.Rotate | cpp/tsp.cpp:70 | the in-place rotation computes the left rotation |
| Tsp.RotatePermutes | cpp/tsp.cpp:70 | rotation keeps the multiset of entries |
| Tsp.ReverseIndex | cpp/tsp.cpp:71 | reversal sends position `k` to `N - 1 - k` |
| Tsp.ReversePermutes | cpp/tsp.cpp:71 | reversal keeps the multiset of entries |
| Tsp.ReversePrefixAt | cpp/tsp.cpp:71 | reversing the first `l` entries mirrors them and keeps the rest |
| Tsp.ReverseFront | cpp/tsp.cpp:71 | the swap loop reverses the first `l` entries in place |
| Tsp.ReversePrefixPermutes | cpp/tsp.cpp:71 | reversing a prefix keeps the multiset of entries |
| Tsp.CyclicMod | cpp/tsp.cpp:63 | `(i + l) % N` is the cyclic position `l` steps after `i` |
| Tsp.MovedAt | cpp/tsp.cpp:69-73 | after a move, the block of `l` positions from `i` is reversed and the rest is unchanged |
| Tsp.Moved | cpp/tsp.cpp:69-73 | the move keeps the tour length; what it does to each position is `MovedAt` and `MoveReversesBlock` |
| Tsp.MoveReversesBlock | cpp/tsp.cpp:69-73 | the move reverses the block cyclically starting at `i` and leaves every other position alone |
| Tsp.MoveExchangesEdges | cpp/tsp.cpp:63-73 | the move replaces edges `(i-1, i)` and `(j-1, j)` with `(i-1, j-1)` and `(i, j)` |
| Tsp.MovePermutes | cpp/tsp.cpp:69-73 | a move keeps the multiset of entries |
| Tsp.TwoOptMove | cpp/tsp.cpp:69-73 | rotate, reverse and rotate back compute the move |
| Tsp.Round | cpp/tsp.cpp:59-76 | one round of the two nested loops: the tour passes through a chain of tours, one per move applied, each a 2-opt move at some start `i < N` and block length `2 <= l <= N - 2` whose gain on the tour before it is at least `1e-9`; the chain starts at the old tour and ends at the new one; the count is the number of moves and `shrunk` says it is positive; a round without moves leaves no start and block length with such a gain |
| Tsp.Optimize | cpp/tsp.cpp:58-79 | at most 100 rounds; every round before the last applied a move; it stops early only after a round without moves, and then no start and block length has a gain of `1e-9` or more; the whole run is a chain of 2-opt moves, each with gain at least `1e-9` and `2 <= l <= N - 2`, from the old tour to the new one, as many as the rounds' move counts add up to; the tour stays a permutation |
| Tsp.Next | cpp/tsp.cpp:26 | the next tour position wraps to 0 after the last one |
| Tsp.NextMod | cpp/tsp.cpp:26 | `(i + 1) % N` is that next position |
| Tsp.Edge | cpp/tsp.cpp:24-31 | each edge is an unlabelled path of two points |
| Tsp.Mark | cpp/tsp.cpp:32-40 | each city's square is labelled with its number |
| Tsp.Edges | cpp/tsp.cpp:24-31 | one edge per tour position, in order |
| Tsp.Marks | cpp/tsp.cpp:32-40 | one square per city, in order |
| Tsp.DrawnFrame | cpp/tsp.cpp:21-41 | the frame is `(-1,-1)-(21,21)` with the edges followed by the squares |
| Tsp.Draw | cpp/tsp.cpp:21-41 | the two loops of `draw` write that frame |
| Tsp.EdgesFormTour | cpp/tsp.cpp:24-31 | each edge starts where the previous one ended, so the edges form the closed tour |
| Tsp.DigitsClosable | cpp/tsp.cpp:36 | a city number can be used as a label |
| Tsp.DrawReadBack | cpp/tsp.cpp:21-41 | what `draw` prints is read back as one frame holding exactly those elements |

## Left out

- Floating point: coordinates, scales and distances are exact reals. `f32`
  rounding, infinities and NaN are not modelled. This includes the
  `INFINITY` distance in the segment test, which the model writes as "not
  hit".
- Printed coordinates are integers counting millionths, which is what
  `std::fixed` prints. Rounding a `float` to six places is not modelled.
- nom's `float` also accepts exponents, `inf` and `nan`. The model reads
  only signed decimals with an optional fraction, the forms the printer
  writes.
- The colour tables are parameters of the model: the CSS names of
  `color_name`, colorous' `TURBO`, and the HSV-to-RGB step of `tag`. Only
  the tag's hue and saturation arithmetic is modelled.
- `Color::ratio`, `Color::turbo` and `Color::tag` in `src/lib.rs` use the
  same oracles and are not part of this model.
- Encoding and decoding scenes (bincode, `encode`, `decode`,
  `*_to_file`/`*_from_file`, `from_u8s`) and all file I/O. A load is given
  as its outcome (`LoadOutcome`).
- The file dialog, the channel and the thread of `app.rs`, the egui
  layout, painting, text galleys and `request_repaint`.
- The screen transform `t` is a parameter of `Update`. The model does not
  compute it from the panel size, `max_mul` and `from_to`
  (`visualizer/src/main.rs:91-106`). `MaxMul`, `MaxMulFits` and `FromTo`
  state those steps separately, and `Update` is not tied to them.
- The debug text of the drag position is a parameter `show`.
- `src/main.rs`, the example programs, and `main` in `visualizer/src/main.rs`.
- In `cpp/tsp.cpp`, the random cities and the standard error output are
  left out. The cities are a parameter in millionths.
- The gain `diff` of a move is a parameter of `Optimize`, because it is
  built from `float` square roots.
- The frames that `draw` prints after each move are not collected by
  `Optimize`. `Draw` and `DrawReadBack` cover one call.
- Viewer.MaxMul and Viewer.Zoomed require non-zero divisors. For the
  default frame's `Rect::NOTHING`, and for a zero zoom factor, egui
  computes with infinities. The model leaves those cases out.
- Viewer.SliderIndex: the `usize`/`i32` casts of the slider are modelled
  as a clamp to the slider's range. Wrap-around for more than `2^31`
  frames is not modelled.
- The length of the scale vector that `shape_transform` multiplies a
  circle's radius by is a square root. It is passed in as `scaleLen`, fixed
  by its square; the square root itself is not computed.
- `shape_transform` panics on shapes other than paths, rectangles and
  circles. The viewer never builds any other shape, so the model has no
  other case.
- Convert.FillColor, Convert.ToStroke: the visualizer builds colours with
  `from_rgba_unmultiplied` and an alpha read from the file, but the scene
  `Color` has no alpha, so the model converts with the opaque `from_rgb`.

## Findings

| source | as written | input that shows it | evidently intended | confidence | as-written member | corrected member |
|---|---|---|---|---|---|---|
| frame.hpp:36-42 | the closing `]` is printed only after the last point, so a path with no points prints `p [ {{m}}` | a `frame::path` with no `add` calls, label `m` | every printed path, including the empty one, is readable by `parse_vec_pos2` (`p [] {{m}}`) | not executed | RoundTrip.EmptyPathUnreadable | RoundTrip.EmptyPathLineRoundTrip |
| visualizer/src/transform.rs:18-23 | the circle radius is multiplied by the length of the scale vector, `sqrt(sx² + sy²)` | the identity transform and a circle of radius `r`: it is drawn with radius `r·sqrt 2`, so the point at distance `1.2·r` looks inside but shows no tooltip | the radius is scaled like the geometry, so the drawn circle is the hover region (`sqrt(sx·sy)`, as used for text sizes) | not executed | Transform.DrawnCircleTooLarge | Transform.FixedCircleIsHoverRegion |
