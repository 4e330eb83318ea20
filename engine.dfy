/**
 * The engine's animation group, seen from the viewer's facade as an opaque
 * handle: it accepts control calls, reports whether it is started, and
 * exposes the keyframes of its targeted animations and the runtime
 * animations of its animatables. What the engine does with a call is not
 * modelled; each call is recorded in a log, and the started flag it reports
 * afterwards is supplied by the caller, standing in for the engine's decision.
 */
module Engine {

  datatype Option<+T> = None | Some(value: T)

  /** One running animation inside an animatable: its current frame, and the
      frame rate of the animation attached to it (None when none is attached). */
  datatype RuntimeAnimation = RuntimeAnimation(currentFrame: int, framePerSecond: Option<int>)

  /** A control request sent to the animation group. */
  datatype Call =
    | PlayCall(loop: bool)
    | StartCall(loop: bool, speedRatio: real)
    | StopCall
    | PauseCall
    | ResetCall
    | RestartCall

  class AnimationGroup {
    /** What the engine reports as `isStarted`. */
    var isStarted: bool
    var speedRatio: real
    /** Every control request received so far, oldest first. */
    var calls: seq<Call>
    /** For each targeted animation, the frame numbers of its keys, in key order. */
    var targetedAnimations: seq<seq<int>>
    /** For each animatable, its runtime animations, in registration order. */
    var animatables: seq<seq<RuntimeAnimation>>

    constructor (isStarted: bool, speedRatio: real, targetedAnimations: seq<seq<int>>,
                 animatables: seq<seq<RuntimeAnimation>>)
      ensures this.isStarted == isStarted && this.speedRatio == speedRatio
      ensures this.targetedAnimations == targetedAnimations && this.animatables == animatables
      ensures calls == []
    {
      this.isStarted := isStarted;
      this.speedRatio := speedRatio;
      this.targetedAnimations := targetedAnimations;
      this.animatables := animatables;
      calls := [];
    }

    /** The engine receives `c`; afterwards it reports `startedAfter` as its
        started flag. The engine may rebuild or drop its animatables on any
        call, so nothing is promised about them afterwards. */
    method Issue(c: Call, startedAfter: bool)
      modifies this`calls, this`isStarted, this`animatables
      ensures calls == old(calls) + [c]
      ensures isStarted == startedAfter
    {
      calls := calls + [c];
      isStarted := startedAfter;
    }
  }
}
