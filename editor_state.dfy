/**
 * The editor's immutable state and its playback transitions
 * (`EditorState` in the model layer). Every operation returns a new state
 * value, or the very same one, and never changes its argument.
 */
module EditorStates {
  import opened Wrappers
  import opened DocumentModel

  datatype RenderMode = Normal | ActiveMask

  /** The drawing tool; only the brush is named by the editor state itself. */
  datatype DrawingToolType = Brush | OtherTool(tag: nat)

  datatype DrawingSettings = DrawingSettings(tool: DrawingToolType, strokeSize: int)

  datatype PlaybackSettings = PlaybackSettings(
    renderMode: RenderMode,
    zoom: real,
    currentFrameIndex: int,
    playing: bool)

  datatype EditorState = EditorState(
    doc: Document,
    drawSettings: DrawingSettings,
    playback: PlaybackSettings,
    activeLayerId: Option<LayerId>)

  /** The frame cursor lies in `[0, frameCount)` whenever the document has frames. */
  predicate CursorInRange(s: EditorState) {
    s.doc.frameCount > 0 ==> 0 <= s.playback.currentFrameIndex < s.doc.frameCount
  }

  /**
   * `EditorState.empty`, built over the empty document, which is passed in
   * because the document module is not part of this model: paused at frame 0,
   * zoom 1, normal rendering, a 40-pixel brush and no active layer.
   */
  function Empty(emptyDoc: Document): (s: EditorState)
    ensures s.doc == emptyDoc && s.activeLayerId == None
    ensures s.playback.currentFrameIndex == 0 && !s.playback.playing
    ensures s.playback.zoom == 1.0 && s.playback.renderMode == Normal
    ensures s.drawSettings.tool == Brush && s.drawSettings.strokeSize == 40
  {
    EditorState(
      emptyDoc,
      DrawingSettings(Brush, 40),
      PlaybackSettings(Normal, 1.0, 0, false),
      None)
  }

  /**
   * The getter `currentFrame`: nothing for a document without layers;
   * otherwise the base layer's gif frame at the cursor, looked up without
   * wrapping, so nothing when there is no base layer, no gif, or the cursor
   * is outside the gif's frames.
   */
  function CurrentFrame(s: EditorState): (f: Option<GifFrame>)
    ensures |s.doc.layers| == 0 ==> f == None
    ensures f.Some? <==>
      (|s.doc.layers| > 0 && BaseLayer(s.doc).Some? && BaseLayer(s.doc).value.gif.Some? &&
       0 <= s.playback.currentFrameIndex < |BaseLayer(s.doc).value.gif.value.frames|)
    ensures f.Some? ==> f.value == BaseLayer(s.doc).value.gif.value.frames[s.playback.currentFrameIndex]
  {
    if |s.doc.layers| == 0 then None
    else
      match BaseLayer(s.doc)
      case None => None
      case Some(base) =>
        match base.gif
        case None => None
        case Some(gif) =>
          var i := s.playback.currentFrameIndex;
          if 0 <= i < |gif.frames| then Some(gif.frames[i]) else None
  }

  /**
   * The getter `activeLayer`: nothing without an active layer id, otherwise
   * the document's lookup of that id. `Document.getLayer` is not part of this
   * model and is passed in.
   */
  function ActiveLayer(s: EditorState, getLayer: (Document, LayerId) -> Option<Layer>): (l: Option<Layer>)
    ensures s.activeLayerId.None? ==> l.None?
    ensures s.activeLayerId.Some? ==> l == getLayer(s.doc, s.activeLayerId.value)
  {
    match s.activeLayerId
    case None => None
    case Some(id) => getLayer(s.doc, id)
  }

  /** `updateDocument`: replaces the document and nothing else. */
  function UpdateDocument(s: EditorState, doc: Document): (r: EditorState)
    ensures r.doc == doc
    ensures r.drawSettings == s.drawSettings && r.playback == s.playback
    ensures r.activeLayerId == s.activeLayerId
  {
    EditorState(doc, s.drawSettings, s.playback, s.activeLayerId)
  }

  /** `updateActiveLayer`: makes `layerId` the active layer and changes nothing else. */
  function UpdateActiveLayer(s: EditorState, layerId: LayerId): (r: EditorState)
    ensures r.activeLayerId == Some(layerId)
    ensures r.doc == s.doc && r.drawSettings == s.drawSettings && r.playback == s.playback
  {
    EditorState(s.doc, s.drawSettings, s.playback, Some(layerId))
  }

  /** `updatePlayback`: replaces the playback settings and nothing else. */
  function UpdatePlayback(s: EditorState, settings: PlaybackSettings): (r: EditorState)
    ensures r.playback == settings
    ensures r.doc == s.doc && r.drawSettings == s.drawSettings && r.activeLayerId == s.activeLayerId
  {
    EditorState(s.doc, s.drawSettings, settings, s.activeLayerId)
  }

  /**
   * `setPlaying`: the very same state when the flag already has the requested
   * value; otherwise a state whose only difference is the flag.
   */
  function SetPlaying(s: EditorState, playing: bool): (r: EditorState)
    ensures r.playback.playing == playing
    ensures playing == s.playback.playing ==> r == s
    ensures r.doc == s.doc && r.drawSettings == s.drawSettings && r.activeLayerId == s.activeLayerId
    ensures r.playback.renderMode == s.playback.renderMode && r.playback.zoom == s.playback.zoom
    ensures r.playback.currentFrameIndex == s.playback.currentFrameIndex
  {
    if playing == s.playback.playing then s
    else UpdatePlayback(s, s.playback.(playing := playing))
  }

  function Abs(x: int): (r: int)
    ensures r >= 0 && (r == x || r == -x)
  {
    if x < 0 then -x else x
  }

  /** The quotient of `a / n` truncated toward zero, as `Math.trunc(a / n)` gives it. */
  function TruncQuot(a: int, n: int): int
    requires n != 0
  {
    if (a < 0) == (n < 0) then Abs(a) / Abs(n) else -(Abs(a) / Abs(n))
  }

  /**
   * JavaScript's `%` on integers: the remainder of the division truncated
   * toward zero, which takes the sign of the dividend (unlike Dafny's `%`,
   * whose remainder is never negative).
   */
  function JsRem(a: int, n: int): (r: int)
    requires n != 0
    ensures a >= 0 ==> 0 <= r < Abs(n)
    ensures a < 0 ==> -Abs(n) < r <= 0
    ensures Abs(r) == Abs(a) % Abs(n)
    ensures a == n * TruncQuot(a, n) + r
  {
    var m := Abs(a) % Abs(n);
    assert Abs(a) == Abs(n) * (Abs(a) / Abs(n)) + m;
    if a < 0 then -m else m
  }

  /**
   * `setActiveFrame`: the cursor becomes `index` reduced into `[0, frameCount)`,
   * the JavaScript remainder plus `frameCount` when that remainder is negative;
   * the result agrees with the mathematical (Euclidean) residue of `index`.
   */
  function SetActiveFrame(s: EditorState, index: int): (r: EditorState)
    requires s.doc.frameCount > 0
    ensures 0 <= r.playback.currentFrameIndex < s.doc.frameCount
    ensures r.playback.currentFrameIndex == index % s.doc.frameCount
    ensures 0 <= index < s.doc.frameCount ==> r.playback.currentFrameIndex == index
    ensures r.playback.playing == s.playback.playing && r.playback.zoom == s.playback.zoom
    ensures r.playback.renderMode == s.playback.renderMode
    ensures r.doc == s.doc && r.drawSettings == s.drawSettings && r.activeLayerId == s.activeLayerId
  {
    var n := s.doc.frameCount;
    var frame := JsRem(index, n);
    JsRemCorrected(index, n);
    UpdatePlayback(s, s.playback.(currentFrameIndex := if frame < 0 then n + frame else frame))
  }

  /** `advanceFrame`: one step forward, wrapping from the last frame to the first. */
  function AdvanceFrame(s: EditorState): (r: EditorState)
    requires s.doc.frameCount > 0
    ensures 0 <= r.playback.currentFrameIndex < s.doc.frameCount
    ensures CursorInRange(s) && s.playback.currentFrameIndex < s.doc.frameCount - 1 ==>
      r.playback.currentFrameIndex == s.playback.currentFrameIndex + 1
    ensures CursorInRange(s) && s.playback.currentFrameIndex == s.doc.frameCount - 1 ==>
      r.playback.currentFrameIndex == 0
    ensures r.playback.playing == s.playback.playing && r.doc == s.doc
    ensures r.playback.zoom == s.playback.zoom && r.playback.renderMode == s.playback.renderMode
    ensures r.drawSettings == s.drawSettings && r.activeLayerId == s.activeLayerId
    ensures r == SetActiveFrame(s, s.playback.currentFrameIndex + 1)
  {
    SetActiveFrame(s, s.playback.currentFrameIndex + 1)
  }

  // ---------------------------------------------------------------------
  // Arithmetic behind setActiveFrame
  // ---------------------------------------------------------------------

  /** Residues are unique: a value in `[0, n)` congruent to `a` is `a % n`. */
  lemma ModUnique(a: int, n: int, q: int, r: int)
    requires n > 0 && 0 <= r < n && a == q * n + r
    ensures a % n == r
  {
    var q', r' := a / n, a % n;
    assert a == q' * n + r';
    if q > q' {
      assert (q - q') * n == q * n - q' * n;
      MulAtLeast(q - q', n);
    } else if q < q' {
      assert (q' - q) * n == q' * n - q * n;
      MulAtLeast(q' - q, n);
    }
  }

  lemma MulSucc(q: int, n: int)
    ensures (q + 1) * n == q * n + n
  {
  }

  lemma DivModSplit(x: int, n: int)
    requires n > 0
    ensures x == (x / n) * n + x % n
  {
  }

  lemma {:induction false} MulAtLeast(d: int, n: int)
    requires d >= 1 && n >= 0
    ensures d * n >= n
    decreases d
  {
    if d > 1 {
      MulAtLeast(d - 1, n);
      assert d * n == (d - 1) * n + n;
    }
  }

  /** The negative-remainder correction of `setActiveFrame` yields the Euclidean residue. */
  lemma JsRemCorrected(a: int, n: int)
    requires n > 0
    ensures (if JsRem(a, n) < 0 then n + JsRem(a, n) else JsRem(a, n)) == a % n
    ensures 0 <= a < n ==> a % n == a
  {
    var r := JsRem(a, n);
    if 0 <= a < n {
      ModUnique(a, n, 0, a);
    }
    if a >= 0 {
      ModUnique(a, n, a / n, r);
    } else {
      var m := (-a) % n;
      var k := (-a) / n;
      assert -a == k * n + m;
      if m == 0 {
        ModUnique(a, n, -k, 0);
      } else {
        assert a == (-k - 1) * n + (n - m);
        ModUnique(a, n, -k - 1, n - m);
      }
    }
  }

  // ---------------------------------------------------------------------
  // Properties of the transitions
  // ---------------------------------------------------------------------

  /** Requesting the current play flag is a no-op, so `setPlaying` is idempotent. */
  lemma SetPlayingIdempotent(s: EditorState, playing: bool)
    ensures SetPlaying(SetPlaying(s, playing), playing) == SetPlaying(s, playing)
    ensures SetPlaying(s, s.playback.playing) == s
  {
  }

  /** Starting and then stopping playback (or the reverse) gives back the original state. */
  lemma SetPlayingToggleBack(s: EditorState)
    ensures SetPlaying(SetPlaying(s, !s.playback.playing), s.playback.playing) == s
  {
  }

  /** Frame indices that differ by a multiple of the frame count select the same frame. */
  lemma {:induction false} SetActiveFramePeriodic(s: EditorState, index: int, k: int)
    requires s.doc.frameCount > 0
    ensures SetActiveFrame(s, index + k * s.doc.frameCount) == SetActiveFrame(s, index)
  {
    var n := s.doc.frameCount;
    ModUnique(index + k * n, n, index / n + k, index % n);
  }

  /** A cursor already in range is a fixed point: `setActiveFrame` of the current index changes nothing. */
  lemma SetActiveFrameFixedPoint(s: EditorState)
    requires s.doc.frameCount > 0 && CursorInRange(s)
    ensures SetActiveFrame(s, s.playback.currentFrameIndex) == s
  {
  }

  /**
   * `setPlaying`, `updateActiveLayer`, `setActiveFrame` and `advanceFrame` keep
   * the cursor in range; `updateDocument` and `updatePlayback` may move it out.
   */
  lemma TransitionsKeepCursorInRange(s: EditorState, playing: bool, index: int, layerId: LayerId)
    requires CursorInRange(s)
    ensures CursorInRange(SetPlaying(s, playing))
    ensures CursorInRange(UpdateActiveLayer(s, layerId))
    ensures s.doc.frameCount > 0 ==> CursorInRange(SetActiveFrame(s, index))
    ensures s.doc.frameCount > 0 ==> CursorInRange(AdvanceFrame(s))
  {
  }

  /** Applying `advanceFrame` k times to an in-range cursor. */
  function AdvanceTimes(s: EditorState, k: nat): (r: EditorState)
    requires s.doc.frameCount > 0
    ensures r.doc == s.doc
    decreases k
  {
    if k == 0 then s else AdvanceFrame(AdvanceTimes(s, k - 1))
  }

  /** k advances move the cursor k frames forward around the loop of frames. */
  lemma {:induction false} AdvanceTimesIsModular(s: EditorState, k: nat)
    requires s.doc.frameCount > 0 && CursorInRange(s)
    ensures AdvanceTimes(s, k).playback.currentFrameIndex == (s.playback.currentFrameIndex + k) % s.doc.frameCount
  {
    var n := s.doc.frameCount;
    var c := s.playback.currentFrameIndex;
    if k == 0 {
      ModUnique(c, n, 0, c);
    } else {
      AdvanceTimesIsModular(s, k - 1);
      var prev := AdvanceTimes(s, k - 1);
      var p := prev.playback.currentFrameIndex;
      var q := (c + k - 1) / n;
      DivModSplit(c + k - 1, n);
      assert CursorInRange(prev);
      var next := AdvanceFrame(prev);
      assert AdvanceTimes(s, k) == next;
      if p + 1 < n {
        assert next.playback.currentFrameIndex == p + 1;
        ModUnique(c + k, n, q, p + 1);
      } else {
        assert next.playback.currentFrameIndex == 0;
        MulSucc(q, n);
        ModUnique(c + k, n, q + 1, 0);
      }
    }
  }

  /** With five frames, frame -1 is frame 4 and frame 7 is frame 2. */
  lemma SetActiveFrameExamples(s: EditorState)
    requires s.doc.frameCount == 5
    ensures SetActiveFrame(s, -1).playback.currentFrameIndex == 4
    ensures SetActiveFrame(s, 7).playback.currentFrameIndex == 2
  {
  }

  /** With five frames, advancing twice from frame 3 goes 3, 4, 0. */
  lemma AdvanceFrameWrapExample(s: EditorState)
    requires s.doc.frameCount == 5 && s.playback.currentFrameIndex == 3
    ensures AdvanceFrame(s).playback.currentFrameIndex == 4
    ensures AdvanceFrame(AdvanceFrame(s)).playback.currentFrameIndex == 0
  {
  }
}
