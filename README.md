# Hand-gesture state machines of mediapipe-3d-line, in Dafny

The repository draws a 3D line that follows a hand seen by a camera. Its
modellable core is the per-hand gesture state machine that runs once per
video frame. It takes the 21 landmarks the hand detector reports for a hand
and turns them into debounced counters and flags:

- `main.js` (hand-landmarker sketch):
  - a symmetric pinch counter `indexThumbCounter` in [0, 15] with a
    hysteresis latch `touching`;
  - an open-palm counter `openPalmCounter` in [0, 30];
  - a pinch `origin`;
  - a decay of the open-palm counter in frames without any detection.
- `gestureRecognizer.js` (gesture-recognizer sketch): an asymmetric pinch
  debounce. A close frame pinches at once. Five mid-band frames since the
  last close frame, counted in `disconnectedFor`, release the pinch. A far
  frame releases at once.
- `utils.js`: the `clamp` and `map` helpers.

Modules:

- `Utils` (utils.dfy): `clamp` and `map`.
- `Landmarks` (landmarks.dfy): the shared value types and constants:
  - landmark coordinates;
  - the 0.05 / 0.2 thresholds and the Close / Mid / Far band of the distance
    between tips 4 and 8;
  - the pinch origin;
  - the per-axis easing step of the tracked points.
- `LandmarkerSpec` (landmarker_spec.dfy): the main.js state machine as
  functions over values:
  - `Step` is one `Hand.draw`;
  - `Run` is a sequence of frames;
  - `DrawFrame` is one `drawHands`.
  This module also holds the lemmas about runs.
- `Landmarker` (landmarker.dfy): the main.js classes `Point`, `Hand` and the
  `hands` collection (`Tracker`), as classes with the source's fields and
  in-place updates. Each method is proved to follow `LandmarkerSpec`.
- `RecognizerSpec` (recognizer_spec.dfy) and `Recognizer` (recognizer.dfy):
  the same pair for gestureRecognizer.js.

Modelling decisions:

- The planar tip distance is a `real` input of the frame. The source's
  thresholds classify it (`BandOf`). The square root that produces it is not
  modelled.
- The palm-area test and the four finger-straightness tests are boolean
  inputs of the frame. The palm-area test is also stated on its own over
  reals (`TriangleArea`, `PalmExtended`).
- A frame's landmarks arrive already mapped to screen coordinates.
- JavaScript numbers are exact `real`s; the counters are `int`s.
- The sparse `hands` array, indexed by handedness, is a `map<nat, Hand>`.
- `Hand` and `Tracker` keep a ghost `Repr` footprint; `Point` has none, as
  it owns no other object. `Hand` also keeps a ghost copy of every point's
  position, so that its observable state (`State()`) is a `HandState` value.

Behaviour of the code that the model keeps as it is:

- gestureRecognizer.js releases after 5 mid-band frames.
- A far frame there leaves `disconnectedFor` as it is.
- Both sketches compute the origin's y as tip 4's y averaged with itself
  (`(p4.y + p4.y) / 2`). Tip 8's y plays no part.
- The code indexes a hand's landmarks directly; the model requires the 21
  landmarks the detector supplies (`WellFormed`).

## Model

| member | source | states |
|---|---|---|
| Utils.Clamp | utils.js:1-3 | the maximum with `min` is taken first and the minimum with `max` last. The result lies in [min, max] when min <= max. It is v when v is already in range, min below the range and max above it. It is max whenever min > max |
| Utils.ClampIdempotent | utils.js:1-3 | clamping twice with the same bounds equals clamping once |
| Utils.ClampReal | utils.js:1-3 | the same bounds, fixed point and saturation for `clamp` on reals, and max whenever min > max |
| Utils.Map | utils.js:5-12 | without `withinbounds` the result is the affine image: `(r - start2) * (stop1 - start1) == (n - start1) * (stop2 - start2)`, start1 goes to start2 and stop1 to stop2. With `withinbounds` and start2 <= stop2 it lies in [start2, stop2] and still maps the two endpoints |
| Utils.MapClampsAffine | utils.js:5-12 | with `withinbounds` and start2 <= stop2 the result is the affine value clamped to [start2, stop2]; an affine value already in range is returned unchanged |
| Utils.MapReversedRangeIsConstant | utils.js:5-12 | with `withinbounds` and start2 > stop2, every input maps to stop2 |
| Utils.MapReversedRangeCounterexample | utils.js:5-12 | 0 on [0, 1] mapped onto [10, 0] gives 10 unclamped but 0 with `withinbounds` |
| Utils.MapWithin | utils.js:5-12 | the bounded map clamps to the interval between start2 and stop2 in either order: an affine value inside it is returned unchanged, one below it gives the smaller bound and one above it the larger. It maps start1 to start2 and stop1 to stop2, and agrees with `map` when start2 <= stop2 |
| Landmarks.BandOf | main.js:278-284 | the distance between tips 4 and 8 is Close iff below 0.05, Mid iff in [0.05, 0.2), Far iff at least 0.2 |
| Landmarks.PinchOrigin | main.js:376-381 | origin.x is the midpoint of the two tips' x; origin.y is tip 4's y |
| Landmarks.Ease | main.js:399-402 | one easing step shrinks the distance to the target by the factor (1 - easing) |
| Landmarks.EaseCoords | main.js:399-402 | with easing 1 the eased position equals the target |
| Landmarks.EaseStepsDistance | main.js:399-402 | after m easing steps toward a fixed target, the distance is the initial distance times (1 - easing)^m |
| Landmarks.Overwrite | main.js:343-352 | the positions after a frame: there are max(old, new) entries, each index below the frame's length takes the landmark's value, and later indices keep their old value |
| LandmarkerSpec.Initial | main.js:257-265 | the constructor's fields before its first draw: both counters 0, not touching, no origin. That state is not yet a drawn hand, and one `Step` from it is |
| LandmarkerSpec.PinchCount | main.js:278-286 | the pinch counter stays in [0, 15]. Close adds 1 up to 15, Mid subtracts 1 down to 0, Far resets to 0 |
| LandmarkerSpec.Latch | main.js:288-293 | `touching` is true when the counter is 15, false when it is 0, and otherwise unchanged |
| LandmarkerSpec.IsOpenPalm | main.js:295-319 | a frame is an open palm iff the hand is not touching, the palm is extended and no finger fails the extension test; a touching hand is never an open palm |
| LandmarkerSpec.PalmCount | main.js:321-325 | the open-palm counter stays in [0, 30]. It moves +1 on an open-palm frame and -1 otherwise, saturating at both ends |
| LandmarkerSpec.Step | main.js:268-382 | one `Hand.draw`. It keeps the hand invariant: both counters in range, the latch consistent with the counter, `origin` present iff `touching` and equal to the pinch origin of the frame, and positions equal to the frame's landmarks. `touching` turns on only at 15 and off only at 0. The open-palm counter rises only on a frame that is not pinching, with an extended palm and all four fingers extended |
| LandmarkerSpec.CloseRun | main.js:278-293 | n close frames raise the counter to min(c + n, 15). The latch sets once 15 is reached and is otherwise kept |
| LandmarkerSpec.PinchSetsAtFrameFifteen | main.js:257-293 | a new hand seen on n close frames, the first of them counted by its constructor, has counter min(n, 15) and is touching iff n >= 15 |
| LandmarkerSpec.ReleaseNeedsEvidence | main.js:278-293 | a touching hand with counter c stays touching through fewer than c frames, none of them far |
| LandmarkerSpec.PressNeedsEvidence | main.js:278-293 | a released hand with counter c stays released through fewer than 15 - c frames of any kind |
| LandmarkerSpec.OpenPalmRun | main.js:295-325 | far frames with an extended palm and four extended fingers raise the open-palm counter to min(c + n, 30) |
| LandmarkerSpec.TriangleArea | main.js:250-254 | the triangle area is non-negative and zero when two corners coincide |
| LandmarkerSpec.Distance3Squared | main.js:297-300 | the squared 3D distance is non-negative and is zero exactly when the two landmarks coincide |
| LandmarkerSpec.PalmExtended | main.js:297-309 | the palm test holds only when the triangle of landmarks 0, 5 and 17 has positive area |
| LandmarkerSpec.CollapsedPalmNotExtended | main.js:297-311 | a palm with any two of wrist, index base and pinky base coinciding is never extended |
| LandmarkerSpec.Visit | main.js:217-227 | a detection adds its index to the hands, hands of other indices stay as they were, and a new hand is in the invariant |
| LandmarkerSpec.Decay | main.js:210-214 | in a frame without detections only the open-palm counter changes, to max(c - 1, 0), and the hand stays in the invariant |
| LandmarkerSpec.Apply | main.js:217-227 | the detections of a frame never remove a hand |
| LandmarkerSpec.ApplyTouchesOnlyDetected | main.js:217-227 | after the detections of one frame the hands are the old ones plus the detected indices, and every hand of an undetected index is unchanged |
| LandmarkerSpec.ApplyKeepsInv | main.js:217-227 | the detections of a frame keep every hand in the invariant |
| LandmarkerSpec.DrawFrame | main.js:209-228 | one `drawHands`: without detections the hands keep their indices and each one decays; with detections no hand is removed |
| LandmarkerSpec.DrawFrameKeepsDetectionsOnly | main.js:209-228 | with at least one detection the hands are the old ones plus the detected indices, and undetected hands are exactly as they were: they do not decay |
| LandmarkerSpec.DrawFrameKeepsInv | main.js:209-228 | a call of `drawHands`, with or without detections, keeps every hand in the invariant |
| LandmarkerSpec.IdleDecays | main.js:210-214 | k frames without detections keep the same hands and lower each open-palm counter to max(c - k, 0), changing nothing else |
| Landmarker.Point.constructor | main.js:386-393 | a new point's target and position are the landmark, with easing 1 |
| Landmarker.Point.Update | main.js:395-397 | `update` sets the target and leaves the position |
| Landmarker.Point.Draw | main.js:399-402 | `draw` eases the position toward the target |
| Landmarker.OpenPalmScan | main.js:295-319 | the loop over fingers 5, 9, 13 and 17 computes exactly: not touching, the palm extended, and every finger extended |
| Landmarker.Hand.constructor | main.js:257-266 | a new hand is zero-initialised and then drawn once: its state is one `Step` from the initial state |
| Landmarker.Hand.Draw | main.js:268-382 | `draw` moves the hand's state by exactly one `Step` and keeps its points valid |
| Landmarker.Hand.UpdateCounters | main.js:278-325 | the pinch counter, latch and open-palm counter become those of `Step`; points and origin are untouched |
| Landmarker.Hand.TrackPoints | main.js:335-370 | the nested loop (landmark 0, then groups of four) visits every landmark. It creates point i on first sight and otherwise only sets the target of point i; every existing point object is kept |
| Landmarker.Hand.TrackGroup | main.js:343-359 | one pass of the inner loop: landmarks f .. f + increment - 1 get their targets; earlier points are left as they were |
| Landmarker.Hand.TrackOne | main.js:347-352 | landmark i creates point i on first sight (its position is the landmark) and otherwise sets only its target; no other point changes |
| Landmarker.Hand.DrawPoints | main.js:372-374 | drawing every point makes the positions the frame's landmarks |
| Landmarker.Hand.DecayOpenPalm | main.js:212 | the decrement changes only the open-palm counter, as `Decay` |
| Landmarker.Tracker.constructor | main.js:19 | the collection of hands starts empty |
| Landmarker.Tracker.DrawHands | main.js:209-228 | one call moves the hands to `DrawFrame` of the old ones. Existing hands keep their identity |
| Landmarker.Tracker.DrawHand | main.js:217-227 | the body of the loop over detections moves the hands by one `Visit` |
| Landmarker.Tracker.AddHand | main.js:222-223 | the first sighting of an index stores a new hand in one `Step` from the initial state |
| Landmarker.Tracker.Adopt | main.js:223 | storing a hand under a fresh index adds exactly that hand |
| Landmarker.Tracker.RedrawHand | main.js:224-225 | a later sighting draws the existing hand in place; the other hands are unchanged |
| Landmarker.Tracker.DecayAll | main.js:210-214 | a frame without detections decays every hand, as `DrawFrame` with no detections |
| Landmarker.Tracker.DecayHand | main.js:212 | one hand decays and the others are unchanged |
| RecognizerSpec.Step | gestureRecognizer.js:203-242 | Close sets `touching` and resets `disconnectedFor`. Mid increments it and keeps `touching` only while the new count is below 5. Far clears `touching` and leaves the count. `origin` is present iff `touching` and is the pinch origin. Positions become the landmarks, and the invariant is kept |
| RecognizerSpec.MidRun | gestureRecognizer.js:212-216 | k mid-band frames add k to `disconnectedFor`. The hand is still touching afterwards iff it was touching and the count stays below 5 |
| RecognizerSpec.CloseThenMid | gestureRecognizer.js:209-216 | a close frame followed by k mid-band frames leaves the hand touching iff k <= 4 |
| RecognizerSpec.FarReleases | gestureRecognizer.js:217-219 | a far frame releases the pinch and clears the origin, whatever the prior state |
| RecognizerSpec.Initial | gestureRecognizer.js:193-201 | the constructor's fields before its first draw: not touching, count 0, no origin. That state is not yet a drawn hand, and one `Step` from it is |
| RecognizerSpec.PressNeedsClose | gestureRecognizer.js:209-219 | a released hand stays released through any run without a close frame |
| RecognizerSpec.MidCount | gestureRecognizer.js:212-213 | the number of mid-band frames is at most the number of frames, and equals it iff every frame is mid-band |
| RecognizerSpec.DisconnectedCountsMid | gestureRecognizer.js:209-219 | without a close frame `disconnectedFor` grows by exactly the number of mid-band frames; it is never reset |
| RecognizerSpec.RunKeepsInv | gestureRecognizer.js:192-242 | any run of frames keeps the invariant: `disconnectedFor` >= 0, a touching hand has a count below 5, `origin` is present iff `touching`, and there are 21 positions |
| RecognizerSpec.Visit | gestureRecognizer.js:179-189 | a detection adds its index, leaves other indices unchanged, and keeps the invariant of the detected hand |
| RecognizerSpec.Apply | gestureRecognizer.js:176-190 | a call of `drawHands` never removes a hand |
| RecognizerSpec.ApplyTouchesOnlyDetected | gestureRecognizer.js:176-190 | the hands after a frame are the old ones plus the detected indices, and undetected hands are unchanged |
| RecognizerSpec.ApplyKeepsInv | gestureRecognizer.js:176-190 | a call of `drawHands` keeps every hand in the invariant |
| Recognizer.Point.constructor | gestureRecognizer.js:246-253 | a new point's target and position are the landmark, with easing 1 |
| Recognizer.Point.Draw | gestureRecognizer.js:255-260 | `draw` sets the target to the new landmark and eases the position toward it |
| Recognizer.Hand.constructor | gestureRecognizer.js:193-201 | a new hand is zero-initialised and then drawn once |
| Recognizer.Hand.Draw | gestureRecognizer.js:203-242 | `draw` moves the hand's state by exactly one `Step` |
| Recognizer.Hand.TrackPoints | gestureRecognizer.js:221-234 | points are pushed in landmark order on first sight and drawn otherwise; every existing point object is kept. Afterwards position i is landmark i |
| Recognizer.Hand.TrackOne | gestureRecognizer.js:228-233 | landmark i pushes a new point on first sight and otherwise draws point i; either way position i becomes the landmark and every existing point object is kept |
| Recognizer.Tracker.constructor | gestureRecognizer.js:18 | the collection of hands starts empty |
| Recognizer.Tracker.DrawHands | gestureRecognizer.js:176-190 | one call moves the hands to `Apply` of the old ones; an empty detection list changes nothing. Existing hands keep their identity |
| Recognizer.Tracker.DrawHand | gestureRecognizer.js:182-188 | the loop body moves the hands by one `Visit` |
| Recognizer.Tracker.AddHand | gestureRecognizer.js:184-185 | the first sighting of an index stores a new hand in one `Step` from the initial state |
| Recognizer.Tracker.Adopt | gestureRecognizer.js:185 | storing a new hand under a fresh index adds exactly that hand |
| Recognizer.Tracker.RedrawHand | gestureRecognizer.js:187 | a later sighting draws the existing hand in place; the other hands are unchanged |

## Left out

- The detector (`createHandLandmarker`, `detectForVideo`, `createGestureRecognizer`, `recognize`) and the video-timestamp gating: these are asynchronous calls into a foreign library. The model takes their result as a list of detections, each a handedness index and a frame.
- All p5/WebGL rendering: shapes, vertices, strokes, fills, point sizes and colours, rotation, fonts. The `touching` argument of `Point.draw` is used only for rendering and is dropped.
- `sk.dist` and the `isFingerExtended` angle loop (`Math.atan2`): these are floating-point geometry. The tip distance is a real input classified by `BandOf`, and palm and finger extension are boolean inputs. `PalmExtended` states the palm test over exact reals, with the squared height in place of `sk.dist`.
- `mapCoords` / the inline screen mapping and `videoSize`: this is float layout arithmetic. Frames carry already-mapped coordinates. In main.js the mapping also sets z to 0, which the model does not impose.
- The settings overlay, the speed slider, the trail and its easing: these are UI and render-side smoothing.
- Floating point: all arithmetic is exact (`real`, unbounded `int`).
- Utils.Map: requires start1 != stop1. The source divides by zero there: without `withinbounds` it returns ±Infinity or NaN; with `withinbounds` the clamp turns ±Infinity into start2 or stop2, and only n == start1 (0/0) stays NaN. The model does not cover that case, which main.js's speed mapping reaches only when the window is 200 pixels wide.
- Landmarker.Hand.Draw: requires a frame of exactly 21 landmarks (and four finger verdicts). The source indexes landmarks 4, 8, 0, 5 and 17 and the finger groups without checking.
- Recognizer.Hand.Draw: requires 21 landmarks for the same reason.
- Recognizer.Tracker.DrawHands: a missing landmark list (the early return in gestureRecognizer.js `drawHands`) is the empty detection list here; both leave every hand unchanged.
- JavaScript aliasing of `pos` and `targetPos`: the point constructors store the same coordinate object in both. With easing 1 that sharing cannot change a position, and the model keeps the two as separate values.
- The handedness index is any natural number. The detector produces 0 or 1.

## Findings

| source | as written | input that shows it | evidently intended | confidence | as-written member | corrected member |
|---|---|---|---|---|---|---|
| utils.js:8-10 | `map` with `withinbounds` clamps to `clamp(v, start2, stop2)`, so a reversed output range (start2 > stop2) makes `clamp`'s lower bound exceed its upper bound and always returns stop2 | `map(0, 0, 1, 10, 0, true)` gives 0 where the unclamped value is 10 | clamp to the interval between start2 and stop2, whichever is smaller | medium, not executed (neither sketch calls `map` with a reversed range) | Utils.MapReversedRangeIsConstant, Utils.MapReversedRangeCounterexample | Utils.MapWithin |
