/**
 * What one `render` call guarantees about its output, proved on the
 * functions that `Compositor.Render` is verified against: which layers are
 * drawn and in what order, what each composite holds, when the border pass
 * runs, and what the base layer ignores.
 */
module CompositorProperties {
  import opened Wrappers
  import opened DocumentModel
  import opened Compositor

  /** The indices of the layers the layer pass draws, among the first `n`, in document order. */
  function DrawnIndices(a: RenderArgs, n: nat): (d: seq<nat>)
    requires n <= |a.doc.layers|
    ensures forall k :: 0 <= k < |d| ==> d[k] < n && Drawn(a, d[k])
  {
    if n == 0 then []
    else DrawnIndices(a, n - 1) + (if Drawn(a, n - 1) then [n - 1] else [])
  }

  /** `DrawnIndices` lists exactly the drawable layers, each once, in increasing order. */
  lemma {:induction false} DrawnIndicesExact(a: RenderArgs, n: nat)
    requires n <= |a.doc.layers|
    ensures forall i: nat :: i in DrawnIndices(a, n) <==> i < n && Drawn(a, i)
    ensures forall j, k :: 0 <= j < k < |DrawnIndices(a, n)| ==> DrawnIndices(a, n)[j] < DrawnIndices(a, n)[k]
  {
    if n > 0 {
      DrawnIndicesExact(a, n - 1);
    }
  }

  /**
   * The layer pass emits exactly one composite per drawn layer, in document
   * order, each at the origin and holding what the scratch canvas held just
   * after that layer was composed on it.
   */
  lemma {:induction false} CompositesFollowDocumentOrder(a: RenderArgs, n: nat)
    requires n <= |a.doc.layers|
    ensures |LayerPass(a, n)| == |DrawnIndices(a, n)|
    ensures forall k :: 0 <= k < |DrawnIndices(a, n)| ==>
      LayerPass(a, n)[k] == Composite(ScratchContent(a, DrawnIndices(a, n)[k] + 1), 0.0, 0.0)
  {
    if n > 0 {
      CompositesFollowDocumentOrder(a, n - 1);
    }
  }

  /**
   * When the zoomed document fits inside the wiped square, the scratch canvas
   * holds only the current layer's paints: nothing bleeds over from earlier
   * layers.
   */
  lemma NoBleed(a: RenderArgs, i: nat)
    requires i < |a.doc.layers| && Drawn(a, i)
    requires 0.0 <= ScratchWidth(a) <= ClearExtent && 0.0 <= ScratchHeight(a) <= ClearExtent
    ensures ScratchContent(a, i + 1) == OwnPaints(a, i)
  {
  }

  /**
   * With a document that fits the wiped square, the k-th composite of the
   * layer pass shows exactly the k-th drawn layer: for a non-base layer its
   * mask and then its frame clipped to it, for the base layer its frame alone.
   */
  lemma CompositeShowsOneLayer(a: RenderArgs)
    requires 0.0 <= ScratchWidth(a) <= ClearExtent && 0.0 <= ScratchHeight(a) <= ClearExtent
    ensures var n := |a.doc.layers|;
      var d := DrawnIndices(a, n);
      |LayerPass(a, n)| == |d| &&
      forall k :: 0 <= k < |d| ==> LayerPass(a, n)[k] == Composite(OwnPaints(a, d[k]), 0.0, 0.0)
  {
    var n := |a.doc.layers|;
    var d := DrawnIndices(a, n);
    CompositesFollowDocumentOrder(a, n);
    DrawnIndicesExact(a, n);
    forall k | 0 <= k < |d|
      ensures LayerPass(a, n)[k] == Composite(OwnPaints(a, d[k]), 0.0, 0.0)
    {
      assert d[k] in d;
      NoBleed(a, d[k]);
    }
  }

  /** A layer without a gif, hidden, or without a frame adds nothing to either canvas. */
  lemma SkippedLayerEmitsNothing(a: RenderArgs, i: nat)
    requires i < |a.doc.layers| && !Drawn(a, i)
    ensures LayerPass(a, i + 1) == LayerPass(a, i)
    ensures ScratchPass(a, i + 1) == ScratchPass(a, i)
    ensures ScratchContent(a, i + 1) == ScratchContent(a, i)
  {
  }

  /** The layer pass only composites. */
  lemma {:induction false} LayerPassOnlyComposites(a: RenderArgs, n: nat)
    requires n <= |a.doc.layers|
    ensures forall c :: c in LayerPass(a, n) ==> c.Composite? && c.x == 0.0 && c.y == 0.0
  {
    if n > 0 {
      LayerPassOnlyComposites(a, n - 1);
    }
  }

  /** The indices of the highlighted layers among the first `n`, in document order. */
  function BorderedIndices(doc: Document, n: nat, showBordersFor: Option<seq<LayerId>>): (d: seq<nat>)
    requires n <= |doc.layers|
    ensures forall k :: 0 <= k < |d| ==> d[k] < n && Bordered(doc, d[k], showBordersFor)
  {
    if n == 0 then []
    else BorderedIndices(doc, n - 1, showBordersFor) + (if Bordered(doc, n - 1, showBordersFor) then [n - 1] else [])
  }

  /**
   * The border pass strokes one red rectangle for each highlighted layer,
   * whether or not that layer has a gif or is visible, in document order, and
   * nothing else: the k-th stroke outlines the k-th highlighted layer, and the
   * highlighted layers are listed exactly once each, in increasing order.
   */
  lemma {:induction false} BorderPassExact(doc: Document, n: nat, zoom: real, showBordersFor: Option<seq<LayerId>>)
    requires n <= |doc.layers|
    ensures var d := BorderedIndices(doc, n, showBordersFor);
      && |BorderPass(doc, n, zoom, showBordersFor)| == |d|
      && (forall k :: 0 <= k < |d| ==> BorderPass(doc, n, zoom, showBordersFor)[k] == StrokePath([BorderRect(doc, d[k], zoom)], Red))
    ensures forall i: nat :: i in BorderedIndices(doc, n, showBordersFor) <==> i < n && Bordered(doc, i, showBordersFor)
    ensures var d := BorderedIndices(doc, n, showBordersFor);
      forall j, k :: 0 <= j < k < |d| ==> d[j] < d[k]
    ensures forall c :: c in BorderPass(doc, n, zoom, showBordersFor) ==>
      exists i: nat :: i < n && Bordered(doc, i, showBordersFor) && c == StrokePath([BorderRect(doc, i, zoom)], Red)
  {
    if n > 0 {
      BorderPassExact(doc, n - 1, zoom, showBordersFor);
      var tail := if Bordered(doc, n - 1, showBordersFor) then [StrokePath([BorderRect(doc, n - 1, zoom)], Red)] else [];
      assert BorderPass(doc, n, zoom, showBordersFor) == BorderPass(doc, n - 1, zoom, showBordersFor) + tail;
    }
  }

  /** Without highlight ids (absent or empty) the border pass emits nothing. */
  lemma {:induction false} NoHighlightsNoBorders(doc: Document, n: nat, zoom: real, showBordersFor: Option<seq<LayerId>>)
    requires n <= |doc.layers|
    requires showBordersFor == None || showBordersFor == Some([])
    ensures BorderPass(doc, n, zoom, showBordersFor) == []
    ensures LastBorder(doc, n, zoom, showBordersFor) == None
  {
    if n > 0 {
      NoHighlightsNoBorders(doc, n - 1, zoom, showBordersFor);
    }
  }

  /** Every border stroke comes after every layer composite. */
  lemma BordersAfterContent(a: RenderArgs, showBordersFor: Option<seq<LayerId>>)
    ensures var out := RenderOutput(a, showBordersFor);
      forall j, k :: 0 <= j < k < |out| && out[j].StrokePath? ==> !out[k].Composite?
  {
    var n := |a.doc.layers|;
    var layers, borders := LayerPass(a, n), BorderPass(a.doc, n, a.zoom, showBordersFor);
    LayerPassOnlyComposites(a, n);
    BorderPassExact(a.doc, n, a.zoom, showBordersFor);
    var out := RenderOutput(a, showBordersFor);
    forall j, k | 0 <= j < k < |out|
      ensures out[j].StrokePath? ==> !out[k].Composite?
    {
      if k < |layers| {
        assert out[j] in layers;
      } else {
        assert out[k] == borders[k - |layers|];
        assert out[k] in borders;
      }
    }
  }

  /** A document without layers puts nothing on the output surface and nothing on the scratch canvas after the resize. */
  lemma EmptyDocumentDrawsNothing(a: RenderArgs, showBordersFor: Option<seq<LayerId>>)
    requires |a.doc.layers| == 0
    ensures RenderOutput(a, showBordersFor) == []
    ensures ScratchPass(a, 0) == [] && ScratchContent(a, 0) == []
  {
  }

  /**
   * The wipe before each layer is a fixed 10000 by 10000 square. When the
   * zoomed document is wider or taller than that, the wipe leaves what earlier
   * layers drew in place: the canvas keeps the previous content, the partial
   * erase and then the layer's own paints, so earlier layers show through in
   * this layer's composite.
   */
  lemma EarlierLayersRemainBeyondExtent(a: RenderArgs, i: nat)
    requires i < |a.doc.layers| && Drawn(a, i)
    requires ScratchWidth(a) > ClearExtent || ScratchHeight(a) > ClearExtent
    ensures ScratchContent(a, i + 1) == ScratchContent(a, i) + [Erase(ClearArea())] + OwnPaints(a, i)
    ensures LayerPass(a, i + 1) == LayerPass(a, i) + [Composite(ScratchContent(a, i) + [Erase(ClearArea())] + OwnPaints(a, i), 0.0, 0.0)]
  {
  }

  // ---------------------------------------------------------------------
  // The base layer ignores its mask and its position
  // ---------------------------------------------------------------------

  /** The same render arguments with the base layer's mask and position replaced. */
  function WithBaseEdited(a: RenderArgs, b: nat, mask: ImageRef, position: Vec2): (e: RenderArgs)
    requires a.doc.baseIndex == Some(b) && b < |a.doc.layers|
    ensures |e.doc.layers| == |a.doc.layers| && e.doc.baseIndex == a.doc.baseIndex
  {
    var l := a.doc.layers[b].(mask := mask, position := position);
    a.(doc := a.doc.(layers := a.doc.layers[b := l]))
  }

  lemma {:induction false} BaseEditInvisibleUpTo(
    a: RenderArgs, b: nat, mask: ImageRef, position: Vec2, n: nat, showBordersFor: Option<seq<LayerId>>)
    requires a.doc.baseIndex == Some(b) && b < |a.doc.layers| && n <= |a.doc.layers|
    requires var e := WithBaseEdited(a, b, mask, position);
      a.getFrame(e.doc.layers[b], a.cursor, a.doc.frameCount) == a.getFrame(a.doc.layers[b], a.cursor, a.doc.frameCount)
    ensures var e := WithBaseEdited(a, b, mask, position);
      && ScratchContent(e, n) == ScratchContent(a, n)
      && ScratchPass(e, n) == ScratchPass(a, n)
      && LayerPass(e, n) == LayerPass(a, n)
      && BorderPass(e.doc, n, a.zoom, showBordersFor) == BorderPass(a.doc, n, a.zoom, showBordersFor)
  {
    if n > 0 {
      BaseEditInvisibleUpTo(a, b, mask, position, n - 1, showBordersFor);
      var e := WithBaseEdited(a, b, mask, position);
      var i := n - 1;
      assert FrameOf(e, i) == FrameOf(a, i);
      assert Drawn(e, i) == Drawn(a, i);
      assert Origin(e.doc, i, a.zoom) == Origin(a.doc, i, a.zoom);
      assert BorderRect(e.doc, i, a.zoom) == BorderRect(a.doc, i, a.zoom);
      assert Bordered(e.doc, i, showBordersFor) == Bordered(a.doc, i, showBordersFor);
      if Drawn(a, i) {
        assert LayerRect(e, i) == LayerRect(a, i);
        assert LayerScratchCalls(e, i) == LayerScratchCalls(a, i);
        assert LayerContent(e, i, ScratchContent(a, i)) == LayerContent(a, i, ScratchContent(a, i));
      }
    }
  }

  /**
   * The base layer is drawn at the origin without its mask: replacing its
   * mask and its stored position changes nothing `render` emits, provided the
   * layer still resolves to the same frame.
   */
  lemma BaseLayerIgnoresMaskAndPosition(
    a: RenderArgs, b: nat, mask: ImageRef, position: Vec2, showBordersFor: Option<seq<LayerId>>)
    requires a.doc.baseIndex == Some(b) && b < |a.doc.layers|
    requires var e := WithBaseEdited(a, b, mask, position);
      a.getFrame(e.doc.layers[b], a.cursor, a.doc.frameCount) == a.getFrame(a.doc.layers[b], a.cursor, a.doc.frameCount)
    ensures var e := WithBaseEdited(a, b, mask, position);
      && RenderOutput(e, showBordersFor) == RenderOutput(a, showBordersFor)
      && ScratchPass(e, |a.doc.layers|) == ScratchPass(a, |a.doc.layers|)
  {
    BaseEditInvisibleUpTo(a, b, mask, position, |a.doc.layers|, showBordersFor);
  }
}
