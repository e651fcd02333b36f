/**
 * The playback tick of the main view's rendering loop: each tick looks at the
 * application state held by the state reference, dispatches one frame
 * increment while playing, and reschedules itself after a delay taken from
 * the frame being shown.
 */
module MainView {
  import opened Wrappers
  import opened DocumentModel
  import opened EditorStates

  /** The application stage: still loading, or ready with an editor state. */
  datatype AppState = Loading | Ready(editorState: EditorState)

  /** The one action the tick dispatches. */
  datatype Action = IncrementFrame(amount: int)

  /** What one tick decides: the action it dispatches, if any, and the delay before the next tick. */
  datatype TickDecision = TickDecision(dispatch: Option<Action>, nextTimeout: int)

  /** Delay before the first tick, and between ticks while not playing. */
  const IdleTimeout := 100

  /** Delay while playing when the shown frame has no delay of its own. */
  const FallbackTimeout := 30

  /** Gif delays are hundredths of a second; timeouts are milliseconds. */
  const DelayScale := 10

  /** The delay after a playing tick: the frame's own delay when it has a non-zero one, else the fallback. */
  function FrameTimeout(frame: Option<GifFrame>): (t: int)
    ensures frame.Some? && frame.value.info.delay != 0 ==> t == frame.value.info.delay * DelayScale
    ensures (frame.None? || frame.value.info.delay == 0) ==> t == FallbackTimeout
  {
    if frame.Some? && frame.value.info.delay != 0 then frame.value.info.delay * DelayScale else FallbackTimeout
  }

  /** Playback is running: the stage is ready and the editor state is playing. */
  predicate IsPlaying(s: AppState) {
    s.Ready? && s.editorState.playback.playing
  }

  /**
   * The decision of one tick, read from the state the reference holds when the
   * tick runs: no dispatch and the idle delay unless playing; while playing,
   * one increment by a single frame and the current frame's timeout.
   */
  function Tick(s: AppState): (d: TickDecision)
    ensures d.dispatch.Some? <==> IsPlaying(s)
    ensures d.dispatch.Some? ==> d.dispatch.value == IncrementFrame(1)
    ensures !IsPlaying(s) ==> d.nextTimeout == IdleTimeout
    ensures IsPlaying(s) ==> d.nextTimeout == FrameTimeout(CurrentFrame(s.editorState))
  {
    match s
    case Loading => TickDecision(None, IdleTimeout)
    case Ready(es) =>
      if es.playback.playing then TickDecision(Some(IncrementFrame(1)), FrameTimeout(CurrentFrame(es)))
      else TickDecision(None, IdleTimeout)
  }

  /**
   * The rendering loop: `current` is the state reference, `dispatched` the
   * actions sent to the reducer and `timeouts` the delays handed to
   * `setTimeout`, in order.
   */
  class RenderLoop {
    var current: AppState
    var dispatched: seq<Action>
    var timeouts: seq<int>

    /** Mounting the view: the state reference starts at `Loading`, and the first tick is scheduled after the idle delay. */
    constructor ()
      ensures current == Loading && dispatched == [] && timeouts == [IdleTimeout]
    {
      current := Loading;
      dispatched := [];
      timeouts := [IdleTimeout];
    }

    /** Every render stores the latest state in the reference. */
    method Observe(s: AppState)
      modifies this`current
      ensures current == s
    {
      current := s;
    }

    /**
     * One run of `renderLoop`. `afterDispatch` is what the state reference
     * holds when the delay is read, just after the dispatch: whether React
     * re-renders synchronously inside `dispatch` (and so stores the reducer's
     * result in the reference) depends on its scheduler, so the model leaves
     * it open. When the re-render is deferred, `afterDispatch` is the state the
     * tick started with and the tick does exactly what `Tick` decides. A
     * playing tick dereferences `editorState` again, so the reference must
     * still be ready then. The tick always reschedules itself.
     */
    method Fire(afterDispatch: AppState)
      requires IsPlaying(current) ==> afterDispatch.Ready?
      modifies this
      ensures dispatched == old(dispatched) + (if IsPlaying(old(current)) then [IncrementFrame(1)] else [])
      ensures current == if IsPlaying(old(current)) then afterDispatch else old(current)
      ensures timeouts == old(timeouts) + [if IsPlaying(old(current))
        then FrameTimeout(CurrentFrame(afterDispatch.editorState)) else IdleTimeout]
      ensures afterDispatch == old(current) ==> var d := Tick(old(current));
        && dispatched == old(dispatched) + (if d.dispatch.Some? then [d.dispatch.value] else [])
        && timeouts == old(timeouts) + [d.nextTimeout]
    {
      var nextTimeout := IdleTimeout;
      match current {
        case Ready(es) =>
          if es.playback.playing {
            dispatched := dispatched + [IncrementFrame(1)];
            current := afterDispatch;
            var frame := CurrentFrame(current.editorState);
            nextTimeout := if frame.Some? && frame.value.info.delay != 0
              then frame.value.info.delay * DelayScale
              else FallbackTimeout;
          }
        case Loading =>
      }
      timeouts := timeouts + [nextTimeout];
    }
  }

  /** A tick while playing waits a positive time as long as frame delays are not negative. */
  lemma PlayingTickWaits(s: AppState)
    requires IsPlaying(s)
    requires CurrentFrame(s.editorState).Some? ==> CurrentFrame(s.editorState).value.info.delay >= 0
    ensures Tick(s).nextTimeout > 0
  {
  }

  /** Pausing stops the dispatches and brings back the idle delay, whatever frame is shown. */
  lemma PausedTickIsIdle(es: EditorState)
    ensures Tick(Ready(SetPlaying(es, false))) == TickDecision(None, IdleTimeout)
    ensures Tick(Loading) == TickDecision(None, IdleTimeout)
  {
  }

  /**
   * Ticking only reads the shown frame to choose the delay: two playing states
   * showing frames with the same delay decide the same thing.
   */
  lemma TickDependsOnlyOnShownDelay(s: EditorState, t: EditorState)
    requires s.playback.playing && t.playback.playing
    requires CurrentFrame(s).Some? == CurrentFrame(t).Some?
    requires CurrentFrame(s).Some? ==> CurrentFrame(s).value.info.delay == CurrentFrame(t).value.info.delay
    ensures Tick(Ready(s)) == Tick(Ready(t))
  {
  }
}
