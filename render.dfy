/**
 * The layer compositor (`render` and its lazily created scratch canvas).
 *
 * Canvases are modelled abstractly. The scratch canvas keeps its size, its
 * composite mode and save stack, what it currently holds (the paints since it
 * was last wiped, each with the composite mode in force) and a log of every
 * call made on it. The output context keeps its stroke style and current
 * path, and a log of what actually lands on it: scratch composites (carrying
 * a snapshot of the scratch content at that moment) and stroked paths.
 */
module Compositor {
  import opened Wrappers
  import opened DocumentModel

  datatype CompositeMode = SourceOver | SourceIn

  datatype Color = Red | OtherColor(name: string)

  datatype Rect = Rect(x: real, y: real, w: real, h: real)

  /** One pixel operation held by the scratch canvas. */
  datatype Paint =
    | Draw(image: ImageRef, at: Rect, mode: CompositeMode)
    | Erase(area: Rect)

  /** A call made on the scratch canvas or its context. */
  datatype ScratchCall =
    | WidthSet(w: real)
    | HeightSet(h: real)
    | Cleared(area: Rect)
    | Saved
    | Restored
    | ModeSet(mode: CompositeMode)
    | Drew(image: ImageRef, at: Rect)

  /** What lands on the output surface. */
  datatype OutCall =
    | Composite(content: seq<Paint>, x: real, y: real)
    | StrokePath(path: seq<Rect>, color: Color)

  /** `Layer.getFrame(cursor, documentFrameCount)`, whose body is not part of this model. */
  type FrameLookup = (Layer, int, int) -> Option<GifFrame>

  /** The side of the square `clearRect` wipes before each layer. */
  const ClearExtent: real := 10000.0

  /** A fresh canvas element's size. */
  const DefaultWidth: real := 300.0
  const DefaultHeight: real := 150.0

  /** True when `r` covers the whole of a `w` by `h` canvas. */
  predicate Covers(r: Rect, w: real, h: real) {
    r.x <= 0.0 && r.y <= 0.0 && r.x + r.w >= w && r.y + r.h >= h
  }

  /** The scratch canvas and its 2D context. */
  class ScratchCanvas {
    var width: real
    var height: real
    var mode: CompositeMode
    var saved: seq<CompositeMode>
    var content: seq<Paint>
    var log: seq<ScratchCall>

    /** `document.createElement('canvas')` with its context. */
    constructor ()
      ensures width == DefaultWidth && height == DefaultHeight
      ensures mode == SourceOver && saved == [] && content == [] && log == []
    {
      width, height := DefaultWidth, DefaultHeight;
      mode, saved, content, log := SourceOver, [], [], [];
    }

    /** Assigning `canvas.width` also wipes the bitmap and resets the context state. */
    method SetWidth(w: real)
      modifies this
      ensures width == w && height == old(height)
      ensures mode == SourceOver && saved == [] && content == []
      ensures log == old(log) + [WidthSet(w)]
    {
      width := w;
      mode, saved, content := SourceOver, [], [];
      log := log + [WidthSet(w)];
    }

    /** Assigning `canvas.height`; the same reset as for the width. */
    method SetHeight(h: real)
      modifies this
      ensures height == h && width == old(width)
      ensures mode == SourceOver && saved == [] && content == []
      ensures log == old(log) + [HeightSet(h)]
    {
      height := h;
      mode, saved, content := SourceOver, [], [];
      log := log + [HeightSet(h)];
    }

    /** `clearRect`: wipes everything when the area covers the canvas, else records a partial erase. */
    method ClearRect(area: Rect)
      modifies this
      ensures content == if Covers(area, width, height) then [] else old(content) + [Erase(area)]
      ensures width == old(width) && height == old(height) && mode == old(mode) && saved == old(saved)
      ensures log == old(log) + [Cleared(area)]
    {
      if Covers(area, width, height) {
        content := [];
      } else {
        content := content + [Erase(area)];
      }
      log := log + [Cleared(area)];
    }

    /** `save`: pushes the composite mode. */
    method Save()
      modifies this
      ensures saved == old(saved) + [mode] && mode == old(mode)
      ensures width == old(width) && height == old(height) && content == old(content)
      ensures log == old(log) + [Saved]
    {
      saved := saved + [mode];
      log := log + [Saved];
    }

    /** `restore`: pops the composite mode; does nothing to the mode when the stack is empty. */
    method Restore()
      modifies this
      ensures old(saved) != [] ==> mode == old(saved)[|old(saved)| - 1] && saved == old(saved)[..|old(saved)| - 1]
      ensures old(saved) == [] ==> mode == old(mode) && saved == []
      ensures width == old(width) && height == old(height) && content == old(content)
      ensures log == old(log) + [Restored]
    {
      if saved != [] {
        mode := saved[|saved| - 1];
        saved := saved[..|saved| - 1];
      }
      log := log + [Restored];
    }

    /** Assigning `globalCompositeOperation`. */
    method SetComposite(m: CompositeMode)
      modifies this
      ensures mode == m && saved == old(saved)
      ensures width == old(width) && height == old(height) && content == old(content)
      ensures log == old(log) + [ModeSet(m)]
    {
      mode := m;
      log := log + [ModeSet(m)];
    }

    /** `drawImage` onto the scratch canvas, combined under the current mode. */
    method DrawImage(image: ImageRef, at: Rect)
      modifies this
      ensures content == old(content) + [Draw(image, at, mode)]
      ensures width == old(width) && height == old(height) && mode == old(mode) && saved == old(saved)
      ensures log == old(log) + [Drew(image, at)]
    {
      content := content + [Draw(image, at, mode)];
      log := log + [Drew(image, at)];
    }
  }

  /** `getScratchCanvas`: creates the scratch canvas on first use and returns that one ever after. */
  class ScratchCache {
    var canvas: ScratchCanvas?

    constructor ()
      ensures canvas == null
    {
      canvas := null;
    }

    method Get() returns (c: ScratchCanvas)
      modifies this
      ensures canvas == c
      ensures old(canvas) != null ==> c == old(canvas)
      ensures old(canvas) == null ==> fresh(c) && c.width == DefaultWidth && c.height == DefaultHeight
      ensures old(canvas) == null ==> c.mode == SourceOver && c.saved == [] && c.content == [] && c.log == []
    {
      if canvas == null {
        canvas := new ScratchCanvas();
      }
      c := canvas;
    }
  }

  /** The caller's output context. */
  class OutputContext {
    var strokeStyle: Color
    var path: seq<Rect>
    var log: seq<OutCall>

    constructor (style: Color)
      ensures strokeStyle == style && path == [] && log == []
    {
      strokeStyle, path, log := style, [], [];
    }

    /** `drawImage(scratchCanvas, x, y)`: composites what the scratch canvas holds now. */
    method DrawCanvas(src: ScratchCanvas, x: real, y: real)
      modifies this
      ensures log == old(log) + [Composite(src.content, x, y)]
      ensures strokeStyle == old(strokeStyle) && path == old(path)
    {
      log := log + [Composite(src.content, x, y)];
    }

    method SetStrokeStyle(c: Color)
      modifies this
      ensures strokeStyle == c && path == old(path) && log == old(log)
    {
      strokeStyle := c;
    }

    method BeginPath()
      modifies this
      ensures path == [] && strokeStyle == old(strokeStyle) && log == old(log)
    {
      path := [];
    }

    /** `rect`: adds a rectangle to the current path. */
    method AddRect(r: Rect)
      modifies this
      ensures path == old(path) + [r] && strokeStyle == old(strokeStyle) && log == old(log)
    {
      path := path + [r];
    }

    method Stroke()
      modifies this
      ensures log == old(log) + [StrokePath(path, strokeStyle)]
      ensures path == old(path) && strokeStyle == old(strokeStyle)
    {
      log := log + [StrokePath(path, strokeStyle)];
    }
  }

  // ---------------------------------------------------------------------
  // What `render` does, as functions of its arguments
  // ---------------------------------------------------------------------

  /** The arguments of one `render` call that the layer pass reads. */
  datatype RenderArgs = RenderArgs(doc: Document, cursor: int, zoom: real, getFrame: FrameLookup)

  predicate IsBase(doc: Document, i: nat) {
    doc.baseIndex == Some(i)
  }

  /** The frame layer `i` shows at the cursor, if any. */
  function FrameOf(a: RenderArgs, i: nat): Option<GifFrame>
    requires i < |a.doc.layers|
  {
    a.getFrame(a.doc.layers[i], a.cursor, a.doc.frameCount)
  }

  /** Layer `i` takes part in the layer pass: it has a gif, is visible and has a frame to show. */
  predicate Drawn(a: RenderArgs, i: nat)
    requires i < |a.doc.layers|
  {
    a.doc.layers[i].gif.Some? && !a.doc.layers[i].hidden && FrameOf(a, i).Some?
  }

  /** Where layer `i` is drawn: the origin for the base layer, its zoomed position otherwise. */
  function Origin(doc: Document, i: nat, zoom: real): (o: Vec2)
    requires i < |doc.layers|
    ensures IsBase(doc, i) ==> o == Vec2(0.0, 0.0)
    ensures !IsBase(doc, i) ==> o == Vec2(doc.layers[i].position.x * zoom, doc.layers[i].position.y * zoom)
  {
    if IsBase(doc, i) then Vec2(0.0, 0.0)
    else Vec2(doc.layers[i].position.x * zoom, doc.layers[i].position.y * zoom)
  }

  /** The rectangle layer `i`'s mask and frame are drawn into: its origin and its gif's zoomed, scaled size. */
  function LayerRect(a: RenderArgs, i: nat): Rect
    requires i < |a.doc.layers| && a.doc.layers[i].gif.Some?
  {
    var l := a.doc.layers[i];
    var o := Origin(a.doc, i, a.zoom);
    Rect(o.x, o.y, l.gif.value.width * l.scale.x * a.zoom, l.gif.value.height * l.scale.y * a.zoom)
  }

  /** The area wiped before each layer. */
  function ClearArea(): Rect {
    Rect(0.0, 0.0, ClearExtent, ClearExtent)
  }

  /** The scratch size `render` sets: the document size times the zoom. */
  function ScratchWidth(a: RenderArgs): real { a.doc.width * a.zoom }
  function ScratchHeight(a: RenderArgs): real { a.doc.height * a.zoom }

  /**
   * The calls on the scratch canvas for a drawn layer: clear, save, for a
   * non-base layer the mask and the switch to `source-in`, the frame at the
   * same rectangle, restore.
   */
  function LayerScratchCalls(a: RenderArgs, i: nat): (calls: seq<ScratchCall>)
    requires i < |a.doc.layers| && Drawn(a, i)
    ensures |calls| >= 4 && calls[0] == Cleared(ClearArea()) && calls[1] == Saved && calls[|calls| - 1] == Restored
    ensures calls[|calls| - 2] == Drew(FrameOf(a, i).value.canvas, LayerRect(a, i))
    ensures IsBase(a.doc, i) ==> |calls| == 4
    ensures !IsBase(a.doc, i) ==>
      (|calls| == 6 && calls[2] == Drew(a.doc.layers[i].mask, LayerRect(a, i)) && calls[3] == ModeSet(SourceIn))
  {
    var r := LayerRect(a, i);
    [Cleared(ClearArea()), Saved]
      + (if IsBase(a.doc, i) then [] else [Drew(a.doc.layers[i].mask, r), ModeSet(SourceIn)])
      + [Drew(FrameOf(a, i).value.canvas, r), Restored]
  }

  /** What the scratch canvas holds after a drawn layer, given what it held before. */
  function LayerContent(a: RenderArgs, i: nat, prior: seq<Paint>): seq<Paint>
    requires i < |a.doc.layers| && Drawn(a, i)
  {
    var r := LayerRect(a, i);
    var wiped := if Covers(ClearArea(), ScratchWidth(a), ScratchHeight(a)) then [] else prior + [Erase(ClearArea())];
    wiped
      + (if IsBase(a.doc, i) then [] else [Draw(a.doc.layers[i].mask, r, SourceOver)])
      + [Draw(FrameOf(a, i).value.canvas, r, if IsBase(a.doc, i) then SourceOver else SourceIn)]
  }

  /** The paints a drawn layer contributes on its own: the mask (non-base only) and then the clipped frame. */
  function OwnPaints(a: RenderArgs, i: nat): (ps: seq<Paint>)
    requires i < |a.doc.layers| && Drawn(a, i)
    ensures IsBase(a.doc, i) ==> ps == [Draw(FrameOf(a, i).value.canvas, LayerRect(a, i), SourceOver)]
    ensures !IsBase(a.doc, i) ==> ps == [Draw(a.doc.layers[i].mask, LayerRect(a, i), SourceOver),
                                          Draw(FrameOf(a, i).value.canvas, LayerRect(a, i), SourceIn)]
  {
    LayerContent(a, i, []) [if Covers(ClearArea(), ScratchWidth(a), ScratchHeight(a)) then 0 else 1..]
  }

  /** The scratch calls of the layer pass over the first `n` layers. */
  function ScratchPass(a: RenderArgs, n: nat): seq<ScratchCall>
    requires n <= |a.doc.layers|
  {
    if n == 0 then []
    else ScratchPass(a, n - 1) + (if Drawn(a, n - 1) then LayerScratchCalls(a, n - 1) else [])
  }

  /** What the scratch canvas holds after the first `n` layers (it holds nothing after the resize). */
  function ScratchContent(a: RenderArgs, n: nat): seq<Paint>
    requires n <= |a.doc.layers|
  {
    if n == 0 then []
    else if Drawn(a, n - 1) then LayerContent(a, n - 1, ScratchContent(a, n - 1))
    else ScratchContent(a, n - 1)
  }

  /** The output calls of the layer pass over the first `n` layers: one composite per drawn layer. */
  function LayerPass(a: RenderArgs, n: nat): seq<OutCall>
    requires n <= |a.doc.layers|
  {
    if n == 0 then []
    else LayerPass(a, n - 1) + (if Drawn(a, n - 1) then [Composite(ScratchContent(a, n), 0.0, 0.0)] else [])
  }

  /** Layer `i` is one of the highlighted layers. */
  predicate Bordered(doc: Document, i: nat, showBordersFor: Option<seq<LayerId>>)
    requires i < |doc.layers|
  {
    showBordersFor.Some? && doc.layers[i].id in showBordersFor.value
  }

  /** The highlight rectangle of layer `i`: one pixel outside its own zoomed, scaled size. */
  function BorderRect(doc: Document, i: nat, zoom: real): Rect
    requires i < |doc.layers|
  {
    var l := doc.layers[i];
    var o := Origin(doc, i, zoom);
    Rect(o.x - 1.0, o.y - 1.0, l.width * l.scale.x * zoom + 2.0, l.height * l.scale.y * zoom + 2.0)
  }

  /** The output calls of the border pass over the first `n` layers. */
  function BorderPass(doc: Document, n: nat, zoom: real, showBordersFor: Option<seq<LayerId>>): seq<OutCall>
    requires n <= |doc.layers|
  {
    if n == 0 then []
    else
      BorderPass(doc, n - 1, zoom, showBordersFor)
      + (if Bordered(doc, n - 1, showBordersFor) then [StrokePath([BorderRect(doc, n - 1, zoom)], Red)] else [])
  }

  /** The last highlight rectangle of the border pass over the first `n` layers, if any. */
  function LastBorder(doc: Document, n: nat, zoom: real, showBordersFor: Option<seq<LayerId>>): Option<Rect>
    requires n <= |doc.layers|
  {
    if n == 0 then None
    else if Bordered(doc, n - 1, showBordersFor) then Some(BorderRect(doc, n - 1, zoom))
    else LastBorder(doc, n - 1, zoom, showBordersFor)
  }

  /** Everything one `render` call puts on the output surface, in order. */
  function RenderOutput(a: RenderArgs, showBordersFor: Option<seq<LayerId>>): seq<OutCall> {
    LayerPass(a, |a.doc.layers|) + BorderPass(a.doc, |a.doc.layers|, a.zoom, showBordersFor)
  }

  // ---------------------------------------------------------------------
  // render
  // ---------------------------------------------------------------------

  /**
   * The body of the layer loop for a layer that has a gif, is visible and
   * whose frame `frameToDraw` was found: compose it on the cleared scratch
   * canvas (mask first and `source-in` for a non-base layer) and composite the
   * scratch canvas onto the output at the origin.
   */
  method ComposeLayer(scratch: ScratchCanvas, outCtx: OutputContext, a: RenderArgs, i: nat, frameToDraw: GifFrame)
    requires i < |a.doc.layers| && Drawn(a, i) && frameToDraw == FrameOf(a, i).value
    requires scratch.width == ScratchWidth(a) && scratch.height == ScratchHeight(a)
    requires scratch.mode == SourceOver && scratch.saved == []
    modifies scratch, outCtx
    ensures scratch.width == old(scratch.width) && scratch.height == old(scratch.height)
    ensures scratch.mode == SourceOver && scratch.saved == []
    ensures scratch.content == LayerContent(a, i, old(scratch.content))
    ensures scratch.log == old(scratch.log) + LayerScratchCalls(a, i)
    ensures outCtx.log == old(outCtx.log) + [Composite(scratch.content, 0.0, 0.0)]
    ensures outCtx.strokeStyle == old(outCtx.strokeStyle) && outCtx.path == old(outCtx.path)
  {
    var layer := a.doc.layers[i];
    var zoom := a.zoom;
    var isBaseLayer := a.doc.baseIndex == Some(i);
    var drawX := if isBaseLayer then 0.0 else layer.position.x * zoom;
    var drawY := if isBaseLayer then 0.0 else layer.position.y * zoom;

    scratch.ClearRect(Rect(0.0, 0.0, ClearExtent, ClearExtent));
    scratch.Save();
    var layerWidth := layer.gif.value.width * layer.scale.x * zoom;
    var layerHeight := layer.gif.value.height * layer.scale.y * zoom;
    assert Rect(drawX, drawY, layerWidth, layerHeight) == LayerRect(a, i);
    if !isBaseLayer {
      scratch.DrawImage(layer.mask, Rect(drawX, drawY, layerWidth, layerHeight));
      scratch.SetComposite(SourceIn);
    }
    scratch.DrawImage(frameToDraw.canvas, Rect(drawX, drawY, layerWidth, layerHeight));
    scratch.Restore();

    outCtx.DrawCanvas(scratch, 0.0, 0.0);
  }

  /** The body of the border loop for a highlighted layer: stroke its border rectangle in red. */
  method StrokeBorder(outCtx: OutputContext, doc: Document, i: nat, zoom: real)
    requires i < |doc.layers|
    modifies outCtx
    ensures outCtx.log == old(outCtx.log) + [StrokePath([BorderRect(doc, i, zoom)], Red)]
    ensures outCtx.strokeStyle == Red && outCtx.path == [BorderRect(doc, i, zoom)]
  {
    var layer := doc.layers[i];
    var isBaseLayer := doc.baseIndex == Some(i);
    var drawX := if isBaseLayer then 0.0 else layer.position.x * zoom;
    var drawY := if isBaseLayer then 0.0 else layer.position.y * zoom;
    var layerWidth := layer.width * layer.scale.x * zoom;
    var layerHeight := layer.height * layer.scale.y * zoom;

    assert Rect(drawX - 1.0, drawY - 1.0, layerWidth + 2.0, layerHeight + 2.0) == BorderRect(doc, i, zoom);
    outCtx.SetStrokeStyle(Red);
    outCtx.BeginPath();
    outCtx.AddRect(Rect(drawX - 1.0, drawY - 1.0, layerWidth + 2.0, layerHeight + 2.0));
    assert outCtx.path == [BorderRect(doc, i, zoom)];
    outCtx.Stroke();
  }

  /**
   * `render`: resizes the scratch canvas to the zoomed document size, then for
   * each drawable layer in document order composes it on the scratch canvas
   * and composites that onto the output, then strokes the highlight borders.
   */
  method Render(
    cache: ScratchCache,
    doc: Document,
    currentFrameIndex: int,
    zoom: real,
    outCtx: OutputContext,
    getFrame: FrameLookup,
    showBordersFor: Option<seq<LayerId>>)
    modifies cache, cache.canvas, outCtx
    ensures cache.canvas != null
    ensures old(cache.canvas) != null ==> cache.canvas == old(cache.canvas)
    ensures old(cache.canvas) == null ==> fresh(cache.canvas)
    ensures var a := RenderArgs(doc, currentFrameIndex, zoom, getFrame);
      var scratch := cache.canvas;
      && scratch.width == ScratchWidth(a) && scratch.height == ScratchHeight(a)
      && scratch.mode == SourceOver && scratch.saved == []
      && scratch.content == ScratchContent(a, |doc.layers|)
      && scratch.log == (if old(cache.canvas) == null then [] else old(cache.canvas.log))
                        + [WidthSet(ScratchWidth(a)), HeightSet(ScratchHeight(a))] + ScratchPass(a, |doc.layers|)
      && outCtx.log == old(outCtx.log) + RenderOutput(a, showBordersFor)
    ensures match LastBorder(doc, |doc.layers|, zoom, showBordersFor)
      case None => outCtx.strokeStyle == old(outCtx.strokeStyle) && outCtx.path == old(outCtx.path)
      case Some(r) => outCtx.strokeStyle == Red && outCtx.path == [r]
  {
    var a := RenderArgs(doc, currentFrameIndex, zoom, getFrame);
    ghost var log0 := if cache.canvas == null then [] else cache.canvas.log;
    var width, height := doc.width, doc.height;
    width := width * zoom;
    height := height * zoom;

    var scratch := cache.Get();
    scratch.SetWidth(width);
    scratch.SetHeight(height);

    for i := 0 to |doc.layers|
      modifies scratch, outCtx
      invariant scratch.width == width && scratch.height == height
      invariant scratch.mode == SourceOver && scratch.saved == []
      invariant scratch.content == ScratchContent(a, i)
      invariant scratch.log == log0 + [WidthSet(width), HeightSet(height)] + ScratchPass(a, i)
      invariant outCtx.log == old(outCtx.log) + LayerPass(a, i)
      invariant outCtx.strokeStyle == old(outCtx.strokeStyle) && outCtx.path == old(outCtx.path)
    {
      var layer := doc.layers[i];
      if layer.gif.None? {
        continue;
      }
      if layer.hidden {
        continue;
      }
      var frameToDraw := getFrame(layer, currentFrameIndex, doc.frameCount);
      if frameToDraw.None? {
        continue;
      }
      ComposeLayer(scratch, outCtx, a, i, frameToDraw.value);
    }

    ghost var afterLayers := outCtx.log;
    for i := 0 to |doc.layers|
      modifies outCtx
      invariant outCtx.log == afterLayers + BorderPass(doc, i, zoom, showBordersFor)
      invariant match LastBorder(doc, i, zoom, showBordersFor)
        case None => outCtx.strokeStyle == old(outCtx.strokeStyle) && outCtx.path == old(outCtx.path)
        case Some(r) => outCtx.strokeStyle == Red && outCtx.path == [r]
    {
      if showBordersFor.Some? && doc.layers[i].id in showBordersFor.value {
        StrokeBorder(outCtx, doc, i, zoom);
      }
    }
  }
}
