/**
 * The fields of documents, layers and decoded gifs that the compositor, the
 * editor state and the playback loop read. The modules that define these
 * entities (the document, the layer and the gif loader) are not part of this
 * model: only their fields appear here, and `Layer.getFrame`, whose body is
 * outside this model, is a parameter of the compositor (see `Compositor.FrameLookup`).
 */
module DocumentModel {
  import opened Wrappers

  /** A layer's identity; two ids are equal when `LayerId.equals` says so, i.e. by value. */
  datatype LayerId = LayerId(value: nat)

  /** A handle on a raster the compositor can draw: a gif frame's canvas or a layer's mask canvas. */
  datatype ImageRef = ImageRef(id: nat)

  datatype Vec2 = Vec2(x: real, y: real)

  /** Per-frame metadata of a decoded gif; `delay` is in hundredths of a second, 0 meaning unspecified. */
  datatype FrameInfo = FrameInfo(delay: int)

  datatype GifFrame = GifFrame(canvas: ImageRef, info: FrameInfo)

  /** A decoded gif: its intrinsic size and its frames in order. */
  datatype Gif = Gif(width: real, height: real, frames: seq<GifFrame>)

  /**
   * A layer: an optional gif, a visibility flag, a position and scale, the
   * mask canvas it is clipped to, and its own (unscaled) size, which the
   * highlight border uses.
   */
  datatype Layer = Layer(
    id: LayerId,
    gif: Option<Gif>,
    hidden: bool,
    position: Vec2,
    scale: Vec2,
    mask: ImageRef,
    width: real,
    height: real)

  /**
   * A document: its layers bottom to top, which of them is the base layer
   * (by position in `layers`, standing for the source's reference identity),
   * its canvas size and its document-wide frame count.
   */
  datatype Document = Document(
    layers: seq<Layer>,
    baseIndex: Option<nat>,
    width: real,
    height: real,
    frameCount: int)

  /** `doc.baseLayer`: the designated base layer, when it is one of the layers. */
  function BaseLayer(doc: Document): (b: Option<Layer>)
    ensures b.Some? <==> doc.baseIndex.Some? && doc.baseIndex.value < |doc.layers|
    ensures b.Some? ==> b.value == doc.layers[doc.baseIndex.value]
  {
    if doc.baseIndex.Some? && doc.baseIndex.value < |doc.layers|
    then Some(doc.layers[doc.baseIndex.value])
    else None
  }
}
