/**
 * The viewer's state machine (`EguiSample` in visualizer/src/main.rs and,
 * with the same logic, visualizer/src/app.rs). One call of `update` runs, in
 * this order: the frame slider, "reset view", loading a picked file, then in
 * the central panel the zoom and the tooltip scan while the pointer hovers,
 * the pan while the pointer drags, and last the arrow keys.
 *
 * Layout, painting and the file dialog are not modelled: the screen
 * transform the central panel computes, the pointer positions, the pressed
 * keys and the outcome of decoding a file are inputs.
 */
module Viewer {
  import opened Wrappers
  import opened Geometry
  import opened Paint
  import opened HoverCheck
  import Scene
  import Convert

  /** What decoding the picked file gave: the scene frames, or the error's debug text. */
  datatype LoadOutcome = Decoded(frames: Scene.Frames) | DecodeFailed(debug: string)

  /* ------------------------------------------------------- frame selection */

  /** The largest index the slider offers: `max(len, 1) - 1`. */
  function SliderMax(n: nat): nat
  {
    if n == 0 then 0 else n - 1
  }

  /** The slider clamps the index it is given into `0 ..= SliderMax(n)`. */
  function SliderIndex(v: int, n: nat): (k: nat)
    ensures k <= SliderMax(n)
    ensures 0 <= v <= SliderMax(n) ==> k == v
    ensures v < 0 ==> k == 0
    ensures v > SliderMax(n) ==> k == SliderMax(n)
  {
    if v < 0 then 0 else if v > SliderMax(n) then SliderMax(n) else v
  }

  /** ArrowRight: one frame on, unless this is the last frame. */
  function NextIndex(i: nat, n: nat): (k: nat)
    ensures i + 1 < n ==> k == i + 1
    ensures i + 1 >= n ==> k == i
  {
    if i + 1 < n then i + 1 else i
  }

  /** ArrowLeft: one frame back, unless this is the first frame. */
  function PrevIndex(i: nat): (k: nat)
    ensures i > 0 ==> k == i - 1
    ensures i == 0 ==> k == 0
  {
    if i > 0 then i - 1 else i
  }

  /** The index names a frame, or there are no frames and it is 0. */
  predicate IndexOk(i: nat, n: nat)
  {
    i < n || i == 0
  }

  /** Whatever the slider is given, the index it leaves is in range. */
  lemma SliderInRange(v: int, n: nat)
    ensures IndexOk(SliderIndex(v, n), n)
    ensures n > 0 ==> SliderIndex(v, n) < n
  {
  }

  /** The arrow keys keep an in-range index in range. */
  lemma ArrowsKeepIndexOk(i: nat, n: nat)
    requires IndexOk(i, n)
    ensures IndexOk(NextIndex(i, n), n) && IndexOk(PrevIndex(i), n)
  {
  }

  /** ArrowLeft undoes an ArrowRight that moved, and ArrowRight undoes an ArrowLeft that moved. */
  lemma ArrowsUndo(i: nat, n: nat)
    ensures NextIndex(i, n) != i ==> PrevIndex(NextIndex(i, n)) == i
    ensures PrevIndex(i) != i && i < n ==> NextIndex(PrevIndex(i), n) == i
  {
  }

  /* ------------------------------------------------------------------ zoom */

  /**
   * The zoom factors of the two corners: Z held gives `(zd, 1)`, otherwise X
   * held gives `(1, zd)`, otherwise `(zd, zd)`.
   */
  function ZoomFactors(zd: real, zDown: bool, xDown: bool): (f: (real, real))
    ensures zDown ==> f == (zd, 1.0)
    ensures !zDown && xDown ==> f == (1.0, zd)
    ensures !zDown && !xDown ==> f == (zd, zd)
  {
    if zDown then (zd, 1.0) else if xDown then (1.0, zd) else (zd, zd)
  }

  /**
   * The zoomed view about the canvas point `p`: the offset of the `min`
   * corner from `p` is divided by `x`, the offset of the `max` corner by `y`.
   */
  function Zoomed(r: Rect, p: Pos2, x: real, y: real): Rect
    requires x != 0.0 && y != 0.0
  {
    Rect(Pos2(p.x + (r.min.x - p.x) / x, p.y + (r.min.y - p.y) / x),
         Pos2(p.x + (r.max.x - p.x) / y, p.y + (r.max.y - p.y) / y))
  }

  /** With no zoom gesture (`zd == 1`) the view does not move, whatever keys are held. */
  lemma ZoomNeutral(r: Rect, p: Pos2, zDown: bool, xDown: bool)
    ensures var (x, y) := ZoomFactors(1.0, zDown, xDown);
            Zoomed(r, p, x, y) == r
  {
  }

  /**
   * With positive factors a view holding the pointer's canvas point still
   * holds it afterwards, and stays normalized: the point is a fixed point of
   * the zoom.
   */
  lemma ZoomKeepsPoint(r: Rect, p: Pos2, x: real, y: real)
    requires x > 0.0 && y > 0.0 && Contains(r, p)
    ensures Normalized(Zoomed(r, p, x, y)) && Contains(Zoomed(r, p, x, y), p)
  {
    DivSign(r.min.x - p.x, x);
    DivSign(r.min.y - p.y, x);
    DivSign(p.x - r.max.x, y);
    DivSign(p.y - r.max.y, y);
    DivNeg(p.x - r.max.x, y);
    DivNeg(p.y - r.max.y, y);
  }

  /** A uniform zoom about `p` divides the view's size by the zoom factor. */
  lemma UniformZoomScalesSize(r: Rect, p: Pos2, zd: real)
    requires zd > 0.0
    ensures var (x, y) := ZoomFactors(zd, false, false);
            Size(Zoomed(r, p, x, y)) == Vec2((r.max.x - r.min.x) / zd, (r.max.y - r.min.y) / zd)
  {
    DivDiff(r.max.x - p.x, r.min.x - p.x, zd);
    DivDiff(r.max.y - p.y, r.min.y - p.y, zd);
  }

  /**
   * Holding Z does not zoom horizontally: it moves the `min` corner in both
   * directions and leaves the `max` corner, so the height changes too.
   * Zooming by 2 about the centre of the 2-by-2 square makes it 1.5 by 1.5.
   */
  lemma ZoomWithZIsCornerWise()
    ensures var r := Rect(Pos2(0.0, 0.0), Pos2(2.0, 2.0));
            var (x, y) := ZoomFactors(2.0, true, false);
            var z := Zoomed(r, Pos2(1.0, 1.0), x, y);
            z == Rect(Pos2(0.5, 0.5), Pos2(2.0, 2.0)) && Size(z).y != Size(r).y
  {
  }

  lemma DivSign(a: real, k: real)
    requires k > 0.0 && a <= 0.0
    ensures a / k <= 0.0
  {
  }

  lemma DivNeg(a: real, k: real)
    requires k != 0.0
    ensures (-a) / k == -(a / k)
  {
  }

  lemma DivDiff(a: real, b: real, k: real)
    requires k != 0.0
    ensures a / k - b / k == (a - b) / k
  {
  }

  /* ------------------------------------------------------------------- fit */

  /** `max_mul`: the smaller of the two axis ratios of the panel to the frame. */
  function MaxMul(ui: Vec2, fr: Vec2): real
    requires fr.x != 0.0 && fr.y != 0.0
  {
    var xp := ui.x / fr.x;
    var yp := ui.y / fr.y;
    if xp > yp then yp else xp
  }

  /**
   * For a frame of positive size, the frame scaled by `max_mul` fits in the
   * panel on both axes and fills it on at least one.
   */
  lemma MaxMulFits(ui: Vec2, fr: Vec2)
    requires fr.x > 0.0 && fr.y > 0.0
    ensures fr.x * MaxMul(ui, fr) <= ui.x && fr.y * MaxMul(ui, fr) <= ui.y
    ensures fr.x * MaxMul(ui, fr) == ui.x || fr.y * MaxMul(ui, fr) == ui.y
  {
    var xp := ui.x / fr.x;
    var yp := ui.y / fr.y;
    assert fr.x * xp == ui.x && fr.y * yp == ui.y;
    if xp > yp {
      ScaleMonotone(fr.x, yp, xp);
    } else {
      ScaleMonotone(fr.y, xp, yp);
    }
  }

  /* ------------------------------------------------------------------- pan */

  /** The view after a drag from screen point `before` to `after`: moved back by the canvas-space delta. */
  function Panned(r: Rect, t: RectTransform, before: Pos2, after: Pos2): (r': Rect)
    requires t.Invertible()
    ensures Size(r') == Size(r)
    ensures Center(r') == Add(Center(r), Neg(Sub(t.Inverse().Apply(after), t.Inverse().Apply(before))))
  {
    var from := t.Inverse();
    SetCenter(r, Add(Center(r), Neg(Sub(from.Apply(after), from.Apply(before)))))
  }

  /** Dragging back to where the drag started restores the view. */
  lemma PanBack(r: Rect, t: RectTransform, a: Pos2, b: Pos2)
    requires t.Invertible()
    ensures Panned(Panned(r, t, a, b), t, b, a) == r
  {
  }

  /* ----------------------------------------------------------------- hover */

  /** Element `i` carries a hover region that holds at the pointer. */
  predicate HitAt(es: seq<FrameElement>, i: int, p: Pos2, t: RectTransform)
    requires 0 <= i < |es|
  {
    es[i].hover.Some? && Hits(es[i].hover.value.cond, p, t)
  }

  /** The tooltip: the label of the last element whose hover region holds. */
  function LastHit(es: seq<FrameElement>, p: Pos2, t: RectTransform): Option<string>
  {
    if es == [] then None
    else if HitAt(es, |es| - 1, p, t) then Some(es[|es| - 1].hover.value.msg)
    else LastHit(es[..|es| - 1], p, t)
  }

  /** A tooltip is shown iff some element is hit, and then it is the label of the last one hit. */
  lemma {:induction false} LastHitMeaning(es: seq<FrameElement>, p: Pos2, t: RectTransform)
    ensures LastHit(es, p, t).None? <==> forall i :: 0 <= i < |es| ==> !HitAt(es, i, p, t)
    ensures LastHit(es, p, t).Some? ==>
      exists i :: 0 <= i < |es| && HitAt(es, i, p, t) && LastHit(es, p, t).value == es[i].hover.value.msg
              && forall j :: i < j < |es| ==> !HitAt(es, j, p, t)
    decreases |es|
  {
    if es != [] {
      var n := |es| - 1;
      var init := es[..n];
      assert forall j :: 0 <= j < n ==> es[j] == init[j];
      if !HitAt(es, n, p, t) {
        LastHitMeaning(init, p, t);
        assert forall j :: 0 <= j < n ==> (HitAt(init, j, p, t) <==> HitAt(es, j, p, t));
      }
    }
  }

  /* ------------------------------------------------------------ one update */

  /** The frames after an update: the decoded file's frames, converted, when one arrived. */
  function FramesAfter(fs: seq<PaintFrame>, loaded: Option<LoadOutcome>): seq<PaintFrame>
  {
    if loaded.Some? && loaded.value.Decoded? then Convert.ConvertFrames(loaded.value.frames) else fs
  }

  /** The index the central panel shows during an update: the slider's clamp, or 0 after a load. */
  function ChosenIndex(slider: int, n0: nat, loaded: Option<LoadOutcome>): nat
  {
    if loaded.Some? && loaded.value.Decoded? then 0 else SliderIndex(slider, n0)
  }

  /** The frame drawn for index `i`: frame `i`, or the default frame when there is none. */
  function FrameAt(fs: seq<PaintFrame>, i: nat): PaintFrame
  {
    if i < |fs| then fs[i] else DefaultFrame()
  }

  /**
   * The index after an update that started with `n0` frames and ended with
   * `n1`: the slider's clamp, 0 after a load, then the arrow keys.
   */
  function IndexAfter(slider: int, n0: nat, loaded: Option<LoadOutcome>, n1: nat, right: bool, left: bool): nat
  {
    var chosen := ChosenIndex(slider, n0, loaded);
    var moved := if right then NextIndex(chosen, n1) else chosen;
    if left then PrevIndex(moved) else moved
  }

  /** The view after the top panel: "reset view" on the slid-to frame, then the first loaded frame's rectangle. */
  function SelectedRect(r: Rect, fs0: seq<PaintFrame>, slider: int, reset: bool, loaded: Option<LoadOutcome>): Rect
    requires forall i :: 0 <= i < |fs0| ==> fs0[i].rect.Some?
  {
    var slid := SliderIndex(slider, |fs0|);
    var afterReset := if reset && slid < |fs0| then fs0[slid].rect.value else r;
    var fs1 := FramesAfter(fs0, loaded);
    if loaded.Some? && loaded.value.Decoded? && |fs1| > 0 then fs1[0].rect.value else afterReset
  }

  /** The view after the central panel: the zoom about the hovered point, then the pan of a continued drag. */
  function PointerRect(r: Rect, hover: Option<Pos2>, zd: real, zDown: bool, xDown: bool,
                       drag: Option<Pos2>, interact: Option<Pos2>, t: RectTransform): Rect
    requires t.Invertible() && zd > 0.0
  {
    var (x, y) := ZoomFactors(zd, zDown, xDown);
    var afterZoom := if hover.Some? then Zoomed(r, t.Inverse().Apply(hover.value), x, y) else r;
    if interact.Some? && drag.Some? then Panned(afterZoom, t, drag.value, interact.value) else afterZoom
  }

  /* ---------------------------------------------------------------- viewer */

  class EguiSample {
    var frameIdx: nat
    var frames: seq<PaintFrame>
    var msg: string
    var dragPos: Option<Pos2>
    var frameRect: Rect

    /** Every loaded frame has a real rectangle (only the default frame has none). */
    predicate Valid()
      reads this
    {
      forall i :: 0 <= i < |frames| ==> frames[i].rect.Some?
    }

    /** `EguiSample::new`: no frames, index 0, the 100-by-100 view at the origin. */
    constructor()
      ensures Valid()
      ensures frameIdx == 0 && frames == [] && msg == "" && dragPos == None
      ensures frameRect == Rect(Pos2(0.0, 0.0), Pos2(100.0, 100.0))
    {
      frameIdx := 0;
      frames := [];
      msg := "";
      dragPos := None;
      frameRect := Rect(Pos2(0.0, 0.0), Pos2(100.0, 100.0));
    }

    /** The frame the central panel draws: the selected one, or the default frame when out of range. */
    function Current(): (f: PaintFrame)
      reads this
      ensures frameIdx < |frames| ==> f == frames[frameIdx]
      ensures frameIdx >= |frames| ==> f == DefaultFrame()
    {
      if frameIdx < |frames| then frames[frameIdx] else DefaultFrame()
    }

    /** The frame slider, given the value it was set to (the current index when untouched). */
    method Slide(v: int)
      modifies this
      ensures frameIdx == SliderIndex(v, |frames|) && IndexOk(frameIdx, |frames|)
      ensures frames == old(frames) && msg == old(msg) && dragPos == old(dragPos) && frameRect == old(frameRect)
    {
      SliderInRange(v, |frames|);
      frameIdx := SliderIndex(v, |frames|);
    }

    /** "reset view": the view becomes the current frame's rectangle, when a frame is selected. */
    method ResetView()
      requires Valid()
      modifies this
      ensures frameIdx == old(frameIdx) && frames == old(frames) && msg == old(msg) && dragPos == old(dragPos)
      ensures Valid()
      ensures frameIdx < |frames| ==> frameRect == frames[frameIdx].rect.value
      ensures frameIdx >= |frames| ==> frameRect == old(frameRect)
    {
      if frameIdx < |frames| {
        frameRect := frames[frameIdx].rect.value;
      }
    }

    /**
     * A picked file: decoded frames replace the old ones, the first frame is
     * selected and its rectangle becomes the view; a failure only sets the
     * message.
     */
    method Load(outcome: LoadOutcome)
      requires Valid()
      modifies this
      ensures Valid()
      ensures outcome.Decoded? ==>
        && frames == Convert.ConvertFrames(outcome.frames) && frameIdx == 0 && msg == old(msg)
        && frameRect == (if |frames| > 0 then frames[0].rect.value else old(frameRect))
      ensures outcome.DecodeFailed? ==>
        && msg == outcome.debug
        && frames == old(frames) && frameIdx == old(frameIdx) && frameRect == old(frameRect)
      ensures dragPos == old(dragPos)
    {
      match outcome
      case Decoded(fs) =>
        frames := Convert.ConvertFrames(fs);
        frameIdx := 0;
        if 0 < |frames| {
          frameRect := frames[0].rect.value;
        }
      case DecodeFailed(debug) =>
        msg := debug;
    }

    /** The zoom gesture about the pointer's canvas position. */
    method Zoom(pointer: Pos2, t: RectTransform, zd: real, zDown: bool, xDown: bool)
      requires t.Invertible() && zd > 0.0
      modifies this
      ensures var (x, y) := ZoomFactors(zd, zDown, xDown);
              frameRect == Zoomed(old(frameRect), t.Inverse().Apply(pointer), x, y)
      ensures frameIdx == old(frameIdx) && frames == old(frames) && msg == old(msg) && dragPos == old(dragPos)
    {
      var (x, y) := ZoomFactors(zd, zDown, xDown);
      var p := t.Inverse().Apply(pointer);
      frameRect := Rect(Pos2(p.x + (frameRect.min.x - p.x) / x, p.y + (frameRect.min.y - p.y) / x),
                        Pos2(p.x + (frameRect.max.x - p.x) / y, p.y + (frameRect.max.y - p.y) / y));
    }

    /** The tooltip scan: the elements from last to first, stopping at the first hover region that holds. */
    method HoverScan(pointer: Pos2, t: RectTransform) returns (tip: Option<string>)
      ensures tip == LastHit(Current().elems, pointer, t)
    {
      var es := Current().elems;
      var i := |es|;
      assert es[..i] == es;
      while i > 0
        invariant 0 <= i <= |es|
        invariant LastHit(es, pointer, t) == LastHit(es[..i], pointer, t)
        decreases i
      {
        i := i - 1;
        assert es[..i + 1][..i] == es[..i];
        var e := es[i];
        if e.hover.Some? {
          var hit := Check(e.hover.value.cond, pointer, t);
          if hit {
            assert HitAt(es[..i + 1], i, pointer, t);
            return Some(e.hover.value.msg);
          }
        }
        assert !HitAt(es[..i + 1], i, pointer, t);
      }
      assert es[..0] == [];
      return None;
    }

    /**
     * The pan: while the pointer interacts, the view moves back by the canvas
     * distance it moved since the last update, and its position is kept;
     * without interaction the drag ends. The message then shows the drag
     * position, as rendered by `show`.
     */
    method Drag(interact: Option<Pos2>, t: RectTransform, show: Option<Pos2> -> string)
      requires t.Invertible()
      modifies this
      ensures interact.Some? && old(dragPos).Some? ==>
        frameRect == Panned(old(frameRect), t, old(dragPos).value, interact.value)
      ensures interact.None? || old(dragPos).None? ==> frameRect == old(frameRect)
      ensures dragPos == interact
      ensures msg == show(interact)
      ensures frameIdx == old(frameIdx) && frames == old(frames)
    {
      if interact.Some? {
        if dragPos.Some? {
          frameRect := Panned(frameRect, t, dragPos.value, interact.value);
        }
        dragPos := interact;
      } else {
        dragPos := None;
      }
      msg := show(dragPos);
    }

    method ArrowRight()
      modifies this
      ensures frameIdx == NextIndex(old(frameIdx), |frames|)
      ensures IndexOk(old(frameIdx), |frames|) ==> IndexOk(frameIdx, |frames|)
      ensures frames == old(frames) && msg == old(msg) && dragPos == old(dragPos) && frameRect == old(frameRect)
    {
      if frameIdx + 1 < |frames| {
        frameIdx := frameIdx + 1;
      }
    }

    method ArrowLeft()
      modifies this
      ensures frameIdx == PrevIndex(old(frameIdx))
      ensures IndexOk(old(frameIdx), |frames|) ==> IndexOk(frameIdx, |frames|)
      ensures frames == old(frames) && msg == old(msg) && dragPos == old(dragPos) && frameRect == old(frameRect)
    {
      if frameIdx > 0 {
        frameIdx := frameIdx - 1;
      }
    }

    /** The top panel of one update: the slider, "reset view", then a picked file. */
    method Select(slider: int, reset: bool, loaded: Option<LoadOutcome>)
      requires Valid()
      modifies this
      ensures Valid() && IndexOk(frameIdx, |frames|)
      ensures frames == FramesAfter(old(frames), loaded)
      ensures frameIdx == ChosenIndex(slider, |old(frames)|, loaded)
      ensures frameRect == SelectedRect(old(frameRect), old(frames), slider, reset, loaded)
      ensures dragPos == old(dragPos)
    {
      ghost var fs0, r0 := frames, frameRect;
      Slide(slider);
      ghost var slid := frameIdx;
      if reset {
        ResetView();
      }
      ghost var afterReset := frameRect;
      assert afterReset == if reset && slid < |fs0| then fs0[slid].rect.value else r0;
      if loaded.Some? {
        Load(loaded.value);
      }
    }

    /**
     * The central panel of one update: while the pointer hovers, the zoom and
     * the tooltip scan; then the drag. Returns the tooltip shown, if any.
     */
    method Pointer(hover: Option<Pos2>, zd: real, zDown: bool, xDown: bool, interact: Option<Pos2>,
                   t: RectTransform, show: Option<Pos2> -> string)
      returns (tip: Option<string>)
      requires t.Invertible() && zd > 0.0
      modifies this
      ensures frameRect == PointerRect(old(frameRect), hover, zd, zDown, xDown, old(dragPos), interact, t)
      ensures frames == old(frames) && frameIdx == old(frameIdx)
      ensures dragPos == interact && msg == show(interact)
      ensures hover.None? ==> tip.None?
      ensures hover.Some? ==> tip == LastHit(Current().elems, hover.value, t)
    {
      msg := "";
      tip := None;
      if hover.Some? {
        var pointer := hover.value;
        var es := Current();
        Zoom(pointer, t, zd, zDown, xDown);
        assert Current() == es;
        tip := HoverScan(pointer, t);
      }
      Drag(interact, t, show);
    }

    /**
     * One `update`, with its inputs spelled out: the slider value, the reset
     * button, a decoded file if one arrived, the hover position, the zoom
     * gesture and keys, the interaction position, and the arrow keys. The
     * screen transform `t` is the one the central panel builds from the view.
     * Returns the tooltip shown, if any.
     */
    method Update(slider: int, reset: bool, loaded: Option<LoadOutcome>, hover: Option<Pos2>,
                  zd: real, zDown: bool, xDown: bool, interact: Option<Pos2>,
                  right: bool, left: bool, t: RectTransform, show: Option<Pos2> -> string)
      returns (tip: Option<string>)
      requires Valid() && t.Invertible() && zd > 0.0
      modifies this
      ensures Valid() && IndexOk(frameIdx, |frames|)
      ensures frames == FramesAfter(old(frames), loaded)
      ensures frameIdx == IndexAfter(slider, |old(frames)|, loaded, |frames|, right, left)
      ensures frameRect == PointerRect(SelectedRect(old(frameRect), old(frames), slider, reset, loaded),
                                       hover, zd, zDown, xDown, old(dragPos), interact, t)
      ensures dragPos == interact && msg == show(interact)
      ensures hover.None? ==> tip.None?
      ensures hover.Some? ==>
        tip == LastHit(FrameAt(frames, ChosenIndex(slider, |old(frames)|, loaded)).elems, hover.value, t)
    {
      Select(slider, reset, loaded);
      tip := Pointer(hover, zd, zDown, xDown, interact, t, show);
      if right {
        ArrowRight();
      }
      if left {
        ArrowLeft();
      }
    }
  }
}
