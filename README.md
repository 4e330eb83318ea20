# Viewer model animation, in Dafny

The viewer wraps each engine animation group in a small facade,
`GroupModelAnimation`. The facade keeps two pieces of its own data: a state
label (INIT, PLAYING, PAUSED, STOPPED, ENDED) and a play mode (ONCE, LOOP). It
forwards start, stop, pause, reset and restart to the group. After start and
stop it sets the label from the started flag the group then reports. Pause sets
PAUSED unconditionally. Reset and restart leave the label alone. It also reads
three values off the group's animation data: the length in frames, the current
frame and the frame rate.

The project has three modules:

- `Engine` (`engine.dfy`) stands in for the engine's animation group. It is a
  class holding the started flag, the speed ratio, a log of the control calls
  it has received, the key frames of each targeted animation, and the runtime
  animations of each animatable. Its one method, `Issue`, appends a call to the
  log and puts the flag the caller supplies into the started flag. That flag
  stands in for whatever the engine decides.
- `Readings` (`readings.dfy`) holds the read-only projections:
  - `TotalFrames` is the maximum over the last key frame of each track.
  - `FirstNonzero` is the first-match scan used by both the current-frame and
    frame-rate getters.
  - `Scan` is the nested loop with early return that computes it.
  - Lemmas describe the scan's result by position in animatable-then-animation
    order.
- `ModelAnimation` (`model_animation.dfy`) holds the enums and the class
  `GroupModelAnimation`, whose methods update `state` and `playMode` in place.
  It also has a pure step function `Next` (and `Issued`, the calls one step
  sends), and each method's postcondition ties its effect to that function.
  `Run` folds `Next` over a sequence of events, and lemmas describe what any
  run can reach.

The end-of-animation notification is the method `OnEnd`. The started flag that
the group reports after each call is a parameter of each method.

The frame-rate getter skips a runtime animation with no animation attached,
and also one whose frame rate is 0, because the code tests the value for
truthiness (`Viewer/src/model/modelAnimation.ts:104`). The model reads a
missing animation as `None`, which maps to 0, and the scan skips every 0
reading.

The pure step functions `Next` (label and mode after an operation) and
`Issued` (the calls it sends) are covered by the rows of the
`GroupModelAnimation` methods: each method's postcondition equates its effect
with them.

## Model

| member | source | states |
|---|---|---|
| `ModelAnimation.GroupModelAnimation.constructor` | Viewer/src/model/modelAnimation.ts:38-46 | the facade starts in INIT with mode LOOP, bound to the given group, and makes no call on it |
| `ModelAnimation.GroupModelAnimation.Start` | Viewer/src/model/modelAnimation.ts:146-151 | issues exactly one start call, carrying loop = (mode is LOOP) and the group's speed ratio; the label becomes PLAYING if the group then reports started, otherwise stays as it was; the mode is unchanged |
| `ModelAnimation.GroupModelAnimation.Pause` | Viewer/src/model/modelAnimation.ts:153-156 | issues one pause call; the label becomes PAUSED whatever the group reports; the mode is unchanged |
| `ModelAnimation.GroupModelAnimation.Stop` | Viewer/src/model/modelAnimation.ts:158-163 | issues one stop call; the label becomes STOPPED if the group then reports not started, otherwise stays as it was |
| `ModelAnimation.GroupModelAnimation.OnEnd` | Viewer/src/model/modelAnimation.ts:42-45 | the end notification issues the stop call and leaves the label ENDED, whatever the stop set; the mode is unchanged |
| `ModelAnimation.GroupModelAnimation.SetPlayMode` | Viewer/src/model/modelAnimation.ts:116-129 | the mode becomes the new value. The same value issues no call and leaves the label, the group's flag and its animatables as they were. A new value while PLAYING issues play(new mode is LOOP) and stays PLAYING. A new value in any other label issues reset and returns to INIT |
| `ModelAnimation.GroupModelAnimation.Reset` | Viewer/src/model/modelAnimation.ts:131-133 | forwards one reset call; the label and mode are untouched |
| `ModelAnimation.GroupModelAnimation.Restart` | Viewer/src/model/modelAnimation.ts:135-137 | forwards one restart call; the label and mode are untouched |
| `ModelAnimation.GroupModelAnimation.Frames` | Viewer/src/model/modelAnimation.ts:70-76 | the frames getter is at least the last key frame of every targeted animation of the group and equal to the last key frame of one of them |
| `ModelAnimation.GroupModelAnimation.CurrentFrame` | Viewer/src/model/modelAnimation.ts:78-93 | returns the first nonzero current frame over the group's animatables and their runtime animations in order, or 0 |
| `ModelAnimation.GroupModelAnimation.Fps` | Viewer/src/model/modelAnimation.ts:95-110 | returns the first attached, nonzero frame rate in the same order, or 0 |
| `ModelAnimation.SetPlayModeTwice` | Viewer/src/model/modelAnimation.ts:116-119 | setting a mode a second time changes neither label nor mode, and issues no call |
| `ModelAnimation.RunPlayMode` | Viewer/src/model/modelAnimation.ts:116-129 | after any sequence of operations, the mode is the one the last play-mode change set, or the one the facade had before if there was none |
| `ModelAnimation.RunStateHasCause` | Viewer/src/model/modelAnimation.ts:38-163 | after any sequence of operations, the label is the one it had before or one that some event sets on its own: PLAYING by a confirmed start, STOPPED by a confirmed stop, PAUSED by a pause, ENDED by the end notification, INIT by a play-mode change |
| `ModelAnimation.NeverPlayingWithoutStart` | Viewer/src/model/modelAnimation.ts:146-151 | from construction, no sequence of operations without a start that the group confirmed reaches PLAYING |
| `Readings.Max` | Viewer/src/model/modelAnimation.ts:75 | the result bounds every element from above and is one of them |
| `Readings.TotalFrames` | Viewer/src/model/modelAnimation.ts:70-76 | the length in frames is at least the last key frame of every targeted animation and equal to the last key frame of one of them |
| `Readings.TotalFramesExample` | Viewer/src/model/modelAnimation.ts:70-76 | two tracks whose last keys are at frames 30 and 60 give 60 |
| `Readings.Scan` | Viewer/src/model/modelAnimation.ts:78-110 | the nested loop with early return computes the first-match scan `FirstNonzero` |
| `Readings.FirstNonzeroInAt` | Viewer/src/model/modelAnimation.ts:86-90 | within one animatable, a nonzero reading preceded only by zero readings is the one returned |
| `Readings.FirstNonzeroInZero` | Viewer/src/model/modelAnimation.ts:86-90 | within one animatable, the scan gives 0 exactly when every reading is 0 |
| `Readings.FirstNonzeroInFound` | Viewer/src/model/modelAnimation.ts:86-90 | within one animatable, a nonzero result is the reading at some position preceded only by zero readings |
| `Readings.FirstNonzeroAt` | Viewer/src/model/modelAnimation.ts:80-91 | a nonzero reading at position (animatable i, animation k) whose predecessors in scan order all read 0 is the result |
| `Readings.FirstNonzeroZero` | Viewer/src/model/modelAnimation.ts:80-92 | the scan returns 0 exactly when every reading at every position is 0 |
| `Readings.FirstNonzeroFound` | Viewer/src/model/modelAnimation.ts:80-91 | a nonzero result is the reading at some position whose predecessors in scan order all read 0 |
| `Readings.FirstNonzeroSkipsEmpty` | Viewer/src/model/modelAnimation.ts:83-85 | inserting an animatable with no runtime animations anywhere does not change the result |
| `Engine.AnimationGroup.Issue` | Viewer/src/model/modelAnimation.ts:1 | stand-in for the engine's group: each call is appended to the log, the started flag afterwards is the one supplied, and nothing is promised about the animatables afterwards |

## Left out

- The engine itself (keyframe interpolation, timing, the render loop, observable dispatch) is foreign code. After each call the group's started flag is a parameter. The group's animatables may change on any control call and nothing is promised about them afterwards; the targeted animations' keys are taken to stay fixed.
- Registering the end-of-animation callback and its re-entrancy are not modelled. The notification is the ordinary method `OnEnd`, which takes the started flag the group reports after its stop.
- The `name` getter, the speed ratio getter and setter, `goToFrame` and `dispose` are pass-throughs with no local logic. `goToFrame` also forwards into a private engine field. The speed ratio exists only as a field of the group, which `Start` reads.
- Frame numbers and rates are integers. Floating point, NaN and JavaScript truthiness beyond "nonzero" are not modelled; an absent animation on a runtime animation is `None`.
- `Readings.TotalFrames` and `ModelAnimation.GroupModelAnimation.Frames`: each requires at least one targeted animation, each with at least one key. With no targeted animations the code returns `Math.max()` of nothing, which is -Infinity. A track with no keys makes the code fail when it reads the last key.
