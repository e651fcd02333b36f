# gif-mask compositing and playback core, modelled in Dafny

This project models the part of the gif-mask editor that has real logic.
The editor stacks animated gif layers. Every layer except the base layer is
clipped to its own mask. A playback clock moves a shared frame cursor.

- `editor_state.dfy` (module `EditorStates`) models the immutable
  `EditorState` record and its transitions as pure functions. These are
  `empty`, `currentFrame`, `activeLayer`, `updateDocument`,
  `updateActiveLayer`, `setPlaying`, `setActiveFrame`, `advanceFrame` and
  `updatePlayback`. JavaScript's truncating `%` is written out as `JsRem`,
  and the correction for a negative remainder is proved to give the Euclidean
  residue.
- `render.dfy` (module `Compositor`) models `render` and the lazily created
  scratch canvas as imperative code over three classes:
  - `ScratchCanvas` holds the canvas size, the composite mode and save stack,
    the paints it holds since it was last wiped, and a log of the calls made
    on it.
  - `ScratchCache` is the `getScratchCanvas` singleton.
  - `OutputContext` holds the stroke style, the current path, and a log of
    composites and strokes.

  `Render` is proved to produce exactly the logs described by the functions
  `ScratchPass`, `ScratchContent`, `LayerPass`, `BorderPass` and
  `RenderOutput`.
- `render_properties.dfy` (module `CompositorProperties`) proves what those
  logs mean:
  - composites come in document order, one per drawn layer;
  - each composite holds only its own layer, provided the zoomed document
    fits inside the 10000 by 10000 square wiped before each layer;
  - skipped layers emit nothing;
  - every border follows all content;
  - the base layer ignores its mask and its position.
- `main_view.dfy` (module `MainView`) models the `renderLoop` tick. It has a
  decision function `Tick` and a `RenderLoop` class whose `Fire` method
  follows the tick body.
- `document.dfy` and `wrappers.dfy` hold the document, layer and gif fields
  the core reads, and an `Option` type.

Behaviour of the code that the model makes explicit:
- Non-base layers always draw `layer.mask` (render.ts:58-65). `render` never checks that a mask exists.
- Before each layer the scratch canvas is wiped with `clearRect(0, 0, 10000, 10000)` (render.ts:51). This wipes everything only when the zoomed document is at most 10000 by 10000. Beyond that, what earlier layers drew stays on the scratch canvas and shows in later composites (`CompositorProperties.EarlierLayersRemainBeyondExtent`).
- The tick reads the delay from `stateRef.current` just after `dispatch` (index.tsx:35-37). Which state that is depends on when React re-renders, so `Fire` takes it as a parameter. When the re-render is deferred, it is the state the tick started with.
- The compositor does not reduce the cursor modulo the frame count itself. It calls `Layer.getFrame`, whose body is outside this model, so the model passes it in as the parameter `getFrame`.
- `setActiveFrame` adds `frameCount` to a negative truncated remainder (editorState.ts:69-75). `EditorStates.SetActiveFrame` proves that the result is the Euclidean residue `index % frameCount`.

Canvas semantics used by the model:
- Assigning `canvas.width` or `canvas.height` wipes the bitmap and resets the context state.
- `clearRect` wipes the whole canvas only when its area covers the canvas. Otherwise the canvas records a partial erase.
- A composite onto the output carries a snapshot of what the scratch canvas holds at that moment, with the composite mode each paint was drawn under.

## Model

| member | source | states |
|---|---|---|
| DocumentModel.BaseLayer | src/model/editorState.ts:47 | the designated base layer exactly when its index is among the layers, and then that layer |
| EditorStates.Empty | src/model/editorState.ts:21-34 | the empty state is paused at frame 0, with zoom 1, normal render mode, a 40-pixel brush and no active layer |
| EditorStates.CurrentFrame | src/model/editorState.ts:43-48 | nothing when there are no layers; otherwise a frame exactly when a base layer with a gif exists and the cursor indexes its frames without wrapping, and then it is that frame |
| EditorStates.ActiveLayer | src/model/editorState.ts:50-52 | nothing without an active id, otherwise the document's lookup of that id |
| EditorStates.UpdateDocument | src/model/editorState.ts:54-56 | only the document changes |
| EditorStates.UpdateActiveLayer | src/model/editorState.ts:58-60 | only the active layer id changes, to the given id |
| EditorStates.UpdatePlayback | src/model/editorState.ts:81-83 | only the playback settings change |
| EditorStates.SetPlaying | src/model/editorState.ts:62-67 | the very same state when the flag already has that value; otherwise only the play flag changes |
| EditorStates.SetPlayingIdempotent | src/model/editorState.ts:62-67 | setting the flag twice equals setting it once; setting the current flag is the identity |
| EditorStates.SetPlayingToggleBack | src/model/editorState.ts:62-67 | toggling the flag and toggling it back returns the original state |
| EditorStates.JsRem | src/model/editorState.ts:70 | JavaScript `%`: `a == n * trunc(a / n) + r` with the quotient truncated toward zero; magnitude `abs(a) mod abs(n)`, the sign of the dividend, strictly inside `(-abs(n), abs(n))` |
| EditorStates.JsRemCorrected | src/model/editorState.ts:70-73 | adding the frame count to a negative truncated remainder yields the Euclidean residue; an index already in range is its own residue |
| EditorStates.SetActiveFrame | src/model/editorState.ts:69-75 | for any integer index, the new cursor is in `[0, frameCount)` and equals the index's Euclidean residue; an in-range index is kept; document, drawing settings, active layer, play flag, zoom and render mode are unchanged |
| EditorStates.SetActiveFramePeriodic | src/model/editorState.ts:69-75 | indices that differ by a multiple of the frame count give the same state |
| EditorStates.SetActiveFrameFixedPoint | src/model/editorState.ts:69-75 | re-selecting the current in-range frame returns the same state |
| EditorStates.SetActiveFrameExamples | src/model/editorState.ts:69-75 | with 5 frames, -1 selects 4 and 7 selects 2 |
| EditorStates.AdvanceFrame | src/model/editorState.ts:77-79 | from an in-range cursor, moves one frame forward, and from the last frame wraps to 0; it is `setActiveFrame(cursor + 1)`, and nothing but the cursor changes |
| EditorStates.AdvanceTimesIsModular | src/model/editorState.ts:77-79 | k advances from cursor c land on `(c + k) mod frameCount` |
| EditorStates.AdvanceFrameWrapExample | src/model/editorState.ts:77-79 | with 5 frames, advancing twice from 3 goes 3, 4, 0 |
| EditorStates.TransitionsKeepCursorInRange | src/model/editorState.ts:58-83 | setPlaying, updateActiveLayer, setActiveFrame and advanceFrame keep the cursor inside `[0, frameCount)` |
| Compositor.ScratchCache.Get | src/components/editor/render.ts:4-14 | creates the scratch canvas on the first call only, and returns the same canvas on every later call |
| Compositor.ScratchCanvas.constructor | src/components/editor/render.ts:9-10 | a new canvas has the default size, an empty bitmap and default context state |
| Compositor.ScratchCanvas.SetWidth | src/components/editor/render.ts:30 | assigning the width sets it and wipes the bitmap and context state |
| Compositor.ScratchCanvas.SetHeight | src/components/editor/render.ts:31 | assigning the height sets it and wipes the bitmap and context state |
| Compositor.ScratchCanvas.ClearRect | src/components/editor/render.ts:51 | wipes the canvas when the area covers it, otherwise records a partial erase |
| Compositor.ScratchCanvas.Save | src/components/editor/render.ts:53 | pushes the composite mode |
| Compositor.ScratchCanvas.Restore | src/components/editor/render.ts:73 | pops the composite mode saved last |
| Compositor.ScratchCanvas.SetComposite | src/components/editor/render.ts:64 | the composite mode becomes the given mode |
| Compositor.ScratchCanvas.DrawImage | src/components/editor/render.ts:59-71 | the image is added to what the canvas holds, under the current mode |
| Compositor.OutputContext.DrawCanvas | src/components/editor/render.ts:75 | the output receives a snapshot of what the scratch canvas holds |
| Compositor.OutputContext.SetStrokeStyle | src/components/editor/render.ts:87 | sets the stroke style |
| Compositor.OutputContext.BeginPath | src/components/editor/render.ts:88 | empties the path |
| Compositor.OutputContext.AddRect | src/components/editor/render.ts:89 | adds the rectangle to the path |
| Compositor.OutputContext.Stroke | src/components/editor/render.ts:90 | strokes the current path in the current style |
| Compositor.Origin | src/components/editor/render.ts:47-49 | the base layer is placed at the origin whatever its position; other layers at position times zoom |
| Compositor.LayerScratchCalls | src/components/editor/render.ts:51-73 | a drawn layer's scratch calls are clear, save, then for non-base layers only mask at the layer rectangle and the switch to `source-in`, then the frame at the same rectangle, then restore |
| Compositor.OwnPaints | src/components/editor/render.ts:55-71 | what a drawn layer puts on the scratch canvas: the base layer's frame under `source-over`; for any other layer, its mask and then its frame under `source-in`, both at the layer rectangle (gif size times scale times zoom) |
| Compositor.ComposeLayer | src/components/editor/render.ts:47-75 | the scratch calls and content of one drawn layer are exactly the specified ones, and then exactly one composite at (0,0) of that content; the mode is restored |
| Compositor.StrokeBorder | src/components/editor/render.ts:79-91 | strokes exactly one red rectangle `(x-1, y-1, width*scale.x*zoom+2, height*scale.y*zoom+2)` using the layer's own size |
| Compositor.Render | src/components/editor/render.ts:16-93 | resizes the scratch canvas to the document size times zoom before any layer; the scratch log, scratch content and output log are exactly `ScratchPass`, `ScratchContent` and `LayerPass` followed by `BorderPass`; the composite mode ends restored; the same scratch canvas is reused across calls |
| CompositorProperties.DrawnIndicesExact | src/components/editor/render.ts:33-45 | the drawn layers are exactly those with a gif, not hidden, and with a frame, listed once each in document order |
| CompositorProperties.CompositesFollowDocumentOrder | src/components/editor/render.ts:33-76 | exactly one composite per drawn layer, at the origin, in document order |
| CompositorProperties.NoBleed | src/components/editor/render.ts:51 | when the zoomed document fits the wiped 10000 square, the scratch canvas holds only the current layer's paints |
| CompositorProperties.CompositeShowsOneLayer | src/components/editor/render.ts:47-75 | with a fitting document, the k-th composite shows the k-th drawn layer alone, masked unless it is the base layer |
| CompositorProperties.SkippedLayerEmitsNothing | src/components/editor/render.ts:34-45 | a layer without a gif, hidden, or without a frame adds no call to either canvas |
| CompositorProperties.LayerPassOnlyComposites | src/components/editor/render.ts:33-76 | the layer pass emits only composites at (0,0) |
| CompositorProperties.BorderPassExact | src/components/editor/render.ts:78-92 | the k-th stroke is the red border of the k-th highlighted layer, in document order, each highlighted layer exactly once, including hidden or gif-less ones, and no other stroke |
| CompositorProperties.NoHighlightsNoBorders | src/components/editor/render.ts:79 | an absent or empty highlight list strokes nothing |
| CompositorProperties.BordersAfterContent | src/components/editor/render.ts:33-92 | no composite follows any border stroke in the output |
| CompositorProperties.EmptyDocumentDrawsNothing | src/components/editor/render.ts:33-78 | a document without layers emits nothing on the output |
| CompositorProperties.EarlierLayersRemainBeyondExtent | src/components/editor/render.ts:51-73 | when the zoomed document is wider or taller than 10000, a layer's composite holds the earlier content, the partial erase and then its own paints |
| CompositorProperties.BaseEditInvisibleUpTo | src/components/editor/render.ts:47-73 | changing the base layer's mask and position changes none of the per-layer logs |
| CompositorProperties.BaseLayerIgnoresMaskAndPosition | src/components/editor/render.ts:47-73 | changing the base layer's mask and position changes nothing `render` emits |
| MainView.FrameTimeout | src/views/main/index.tsx:36-37 | while playing, the delay is ten times the frame's delay when the frame exists and its delay is non-zero, else 30 |
| MainView.Tick | src/views/main/index.tsx:30-42 | dispatches exactly when the stage is Ready and playing, and then exactly `IncrementFrame(1)`; the next delay is 100 unless playing, and otherwise the frame timeout of the current state's frame |
| MainView.RenderLoop.constructor | src/views/main/index.tsx:30-42 | the first tick is scheduled after 100 |
| MainView.RenderLoop.Observe | src/views/main/index.tsx:16-17 | each render stores the latest state in the reference |
| MainView.RenderLoop.Fire | src/views/main/index.tsx:30-42 | a playing tick dispatches one `IncrementFrame(1)` and takes its delay from the state the reference holds after the dispatch; any other tick dispatches nothing and waits 100; exactly one more tick is always scheduled; when the re-render is deferred, the tick does what `Tick` of the starting state decides |
| MainView.PlayingTickWaits | src/views/main/index.tsx:36-37 | with non-negative frame delays, a playing tick waits a positive time |
| MainView.PausedTickIsIdle | src/views/main/index.tsx:31-34 | a paused or loading state dispatches nothing and waits 100 |
| MainView.TickDependsOnlyOnShownDelay | src/views/main/index.tsx:36-37 | two playing states whose shown frames agree on existence and delay tick identically |

## Left out

- src/components/timeline/layer.tsx is not part of this model. It is a React component made of drag-and-drop hover logic over screen rectangles, a file drop zone with asynchronous gif loading, and styling.
- index.tsx outside the tick is left out: the React hooks, the `Storage` backup, and the asynchronous initial load with its reset and network fallback. All of it is I/O.
- MainView.RenderLoop.Fire: it does not decide whether the dispatch re-renders synchronously. The state read after the dispatch is a parameter. The agreement with `Tick` is proved only for the deferred case, as under React's automatic batching; under a synchronous re-render the delay comes from the reducer's result.
- Timers are not modelled as time. `setTimeout` appears only as the list of requested delays, and the loop's unbounded repetition is one `Fire` per tick.
- The reducer is not part of this model, so the effect of `IncrementFrame` on the state is not modelled. `Fire` assumes nothing about it beyond the state after the dispatch still being ready.
- Pixels are not modelled. Drawing is abstracted to images, rectangles and composite modes. This leaves out `source-in` alpha arithmetic, stroke rendering and clipping to the canvas.
- Canvas sizes are not truncated. Assigning `canvas.width` in a browser truncates to an integer; the model keeps the real value.
- Zoom, positions, scales and sizes are `real` with exact arithmetic. Floating-point rounding is not modelled.
- Base-layer identity is the layer's position in `layers`. The source compares object references (`layer === doc.baseLayer`).
- The document module, `Layer.getFrame`, `Document.getLayer` and `Document.empty` are not part of this model. `getFrame`, `getLayer` and the empty document are parameters. The document's frame count is a plain field, not a maximum over layers.
- EditorStates.SetActiveFrame: the `frameCount == 0` case, which yields NaN in JavaScript, is excluded by a precondition.
- `DrawingToolType` has only `Brush` as a named member. Its other tools belong to a module that is not part of this model.
- The `strokeStyle` string is reduced to a `Color` value. `'red'` is `Red`.
