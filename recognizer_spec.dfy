// The per-hand pinch debounce of the gesture-recognizer sketch
// (gestureRecognizer.js), as functions over values: one frame's effect on a
// hand (`Step`), a run of frames (`Run`), and one call of `drawHands` over
// all hands (`Apply`). The classes in module Recognizer are proved to follow
// these functions.

module RecognizerSpec {
  import opened Landmarks

  /** Mid-band frames since the last close frame after which a pinch is released. */
  const RELEASE_FRAMES := 5

  /**
   * What `Hand.draw` reads of one frame's landmarks: the planar distance
   * between landmarks 4 and 8, and every landmark already mapped to screen
   * coordinates.
   */
  datatype Frame = Frame(tipDistance: real, coords: seq<Coords>)

  /** The detector always supplies 21 landmarks; the source indexes them unchecked. */
  predicate WellFormed(frame: Frame)
  {
    |frame.coords| == LANDMARKS
  }

  /** The observable state of one `Hand`. */
  datatype HandState = HandState(
    touching: bool,
    disconnectedFor: int,
    origin: Option<Origin>,
    positions: seq<Coords>)

  /** The fields the constructor sets before it draws the first frame. */
  function Initial(): (r: HandState)
    ensures !r.touching && r.disconnectedFor == 0 && r.origin == None
    ensures !Inv(r)
    ensures forall frame :: WellFormed(frame) ==> Inv(Step(r, frame))
  {
    HandState(false, 0, None, [])
  }

  /**
   * The state every drawn hand is in; in particular a pinching hand has
   * seen fewer than five mid-band frames since its last close frame.
   */
  predicate Inv(s: HandState)
  {
    && 0 <= s.disconnectedFor
    && (s.touching ==> s.disconnectedFor < RELEASE_FRAMES)
    && (s.origin.Some? <==> s.touching)
    && |s.positions| == LANDMARKS
  }

  /** One call of `Hand.draw`. */
  function Step(s: HandState, frame: Frame): (r: HandState)
    requires WellFormed(frame)
    ensures BandOf(frame.tipDistance) == Close ==> r.touching && r.disconnectedFor == 0
    ensures BandOf(frame.tipDistance) == Mid ==>
      r.disconnectedFor == s.disconnectedFor + 1 &&
      (r.touching <==> s.touching && s.disconnectedFor + 1 < RELEASE_FRAMES)
    ensures BandOf(frame.tipDistance) == Far ==> !r.touching && r.disconnectedFor == s.disconnectedFor
    ensures r.origin.Some? <==> r.touching
    ensures r.touching ==> r.origin.value == PinchOrigin(frame.coords[THUMB_TIP], frame.coords[INDEX_TIP])
    ensures r.positions == Overwrite(s.positions, frame.coords)
    ensures |s.positions| <= LANDMARKS && 0 <= s.disconnectedFor && (s.touching ==> s.disconnectedFor < RELEASE_FRAMES)
      ==> Inv(r)
  {
    var band := BandOf(frame.tipDistance);
    var disconnectedFor := match band
      case Close => 0
      case Mid => s.disconnectedFor + 1
      case Far => s.disconnectedFor;
    var touching := match band
      case Close => true
      case Mid => s.touching && disconnectedFor < RELEASE_FRAMES
      case Far => false;
    HandState(
      touching,
      disconnectedFor,
      if touching then Some(PinchOrigin(frame.coords[THUMB_TIP], frame.coords[INDEX_TIP])) else None,
      Overwrite(s.positions, frame.coords))
  }

  predicate AllWellFormed(frames: seq<Frame>)
  {
    forall k :: 0 <= k < |frames| ==> WellFormed(frames[k])
  }

  /** The state after drawing `frames` in order. */
  function Run(s: HandState, frames: seq<Frame>): HandState
    requires AllWellFormed(frames)
    decreases |frames|
  {
    if frames == [] then s else Run(Step(s, frames[0]), frames[1..])
  }

  predicate AllMid(frames: seq<Frame>)
  {
    forall k :: 0 <= k < |frames| ==> BandOf(frames[k].tipDistance) == Mid
  }

  /**
   * Mid-band frames count up `disconnectedFor` one per frame, and the pinch
   * survives them exactly while fewer than five have been counted.
   */
  lemma {:induction false} MidRun(s: HandState, frames: seq<Frame>)
    requires AllWellFormed(frames) && AllMid(frames)
    ensures Run(s, frames).disconnectedFor == s.disconnectedFor + |frames|
    ensures frames != [] ==>
      (Run(s, frames).touching <==> s.touching && s.disconnectedFor + |frames| < RELEASE_FRAMES)
    decreases |frames|
  {
    if frames != [] {
      var s1 := Step(s, frames[0]);
      assert AllMid(frames[1..]) by {
        forall k | 0 <= k < |frames[1..]| ensures BandOf(frames[1..][k].tipDistance) == Mid {
          assert frames[1..][k] == frames[k + 1];
        }
      }
      MidRun(s1, frames[1..]);
    }
  }

  /**
   * A close frame followed by k mid-band frames leaves the hand pinching
   * exactly when k is at most 4: the fifth mid-band frame releases it.
   */
  lemma CloseThenMid(s: HandState, close: Frame, frames: seq<Frame>)
    requires WellFormed(close) && BandOf(close.tipDistance) == Close
    requires AllWellFormed(frames) && AllMid(frames)
    ensures Run(s, [close] + frames).touching <==> |frames| < RELEASE_FRAMES
  {
    var s1 := Step(s, close);
    assert ([close] + frames)[1..] == frames;
    MidRun(s1, frames);
  }

  /** A far frame releases at once, whatever came before. */
  lemma FarReleases(s: HandState, frame: Frame)
    requires WellFormed(frame) && FAR_DISTANCE <= frame.tipDistance
    ensures !Step(s, frame).touching && Step(s, frame).origin == None
  {
  }

  predicate NoClose(frames: seq<Frame>)
  {
    forall k :: 0 <= k < |frames| ==> BandOf(frames[k].tipDistance) != Close
  }

  /** Only a close frame can start a pinch. */
  lemma {:induction false} PressNeedsClose(s: HandState, frames: seq<Frame>)
    requires AllWellFormed(frames) && NoClose(frames) && !s.touching
    ensures !Run(s, frames).touching
    decreases |frames|
  {
    if frames != [] {
      var s1 := Step(s, frames[0]);
      assert NoClose(frames[1..]) by {
        forall k | 0 <= k < |frames[1..]| ensures BandOf(frames[1..][k].tipDistance) != Close {
          assert frames[1..][k] == frames[k + 1];
        }
      }
      PressNeedsClose(s1, frames[1..]);
    }
  }

  /** The number of mid-band frames in `frames`. */
  function MidCount(frames: seq<Frame>): (n: nat)
    ensures n <= |frames|
    ensures AllMid(frames) <==> n == |frames|
    decreases |frames|
  {
    if frames == [] then 0
    else (if BandOf(frames[0].tipDistance) == Mid then 1 else 0) + MidCount(frames[1..])
  }

  /**
   * Without a close frame `disconnectedFor` is never reset: it grows by one
   * per mid-band frame and far frames leave it as it was.
   */
  lemma {:induction false} DisconnectedCountsMid(s: HandState, frames: seq<Frame>)
    requires AllWellFormed(frames) && NoClose(frames)
    ensures Run(s, frames).disconnectedFor == s.disconnectedFor + MidCount(frames)
    decreases |frames|
  {
    if frames != [] {
      var s1 := Step(s, frames[0]);
      assert NoClose(frames[1..]) by {
        forall k | 0 <= k < |frames[1..]| ensures BandOf(frames[1..][k].tipDistance) != Close {
          assert frames[1..][k] == frames[k + 1];
        }
      }
      DisconnectedCountsMid(s1, frames[1..]);
    }
  }

  /** Every hand stays in the invariant however many frames it is drawn. */
  lemma {:induction false} RunKeepsInv(s: HandState, frames: seq<Frame>)
    requires AllWellFormed(frames) && frames != []
    requires |s.positions| <= LANDMARKS && 0 <= s.disconnectedFor
    requires s.touching ==> s.disconnectedFor < RELEASE_FRAMES
    ensures Inv(Run(s, frames))
    decreases |frames|
  {
    var s1 := Step(s, frames[0]);
    if |frames| > 1 {
      RunKeepsInv(s1, frames[1..]);
    }
  }

  // ---------------------------------------------------------------------
  // `drawHands`: all hands, keyed by the handedness index of the detector.

  /** One detected hand of a frame: its top handedness index and its landmarks. */
  datatype Detection = Detection(handedness: nat, frame: Frame)

  predicate AllDetectionsWellFormed(dets: seq<Detection>)
  {
    forall k :: 0 <= k < |dets| ==> WellFormed(dets[k].frame)
  }

  // The aggregation below mirrors the one of module LandmarkerSpec: the
  // two sketches have their own `drawHands`, alike but for the decay.

  /** A new hand on first sighting of its index, otherwise a draw of the existing one. */
  function Visit(m: map<nat, HandState>, d: Detection): (r: map<nat, HandState>)
    requires WellFormed(d.frame)
    ensures r.Keys == m.Keys + {d.handedness}
    ensures forall t :: t in m && t != d.handedness ==> r[t] == m[t]
    ensures d.handedness !in m ==> Inv(r[d.handedness])
    ensures d.handedness in m && Inv(m[d.handedness]) ==> Inv(r[d.handedness])
  {
    var t := d.handedness;
    m[t := if t in m then Step(m[t], d.frame) else Step(Initial(), d.frame)]
  }

  /** Every hand of `m` is in the invariant. */
  predicate AllInv(m: map<nat, HandState>)
  {
    forall t :: t in m ==> Inv(m[t])
  }

  /** The handedness indices a list of detections mentions. */
  function Handednesses(dets: seq<Detection>): set<nat>
  {
    set k | 0 <= k < |dets| :: dets[k].handedness
  }

  lemma HandednessesSnoc(dets: seq<Detection>)
    requires dets != []
    ensures Handednesses(dets) == Handednesses(dets[..|dets| - 1]) + {dets[|dets| - 1].handedness}
  {
    var init := dets[..|dets| - 1];
    forall t | t in Handednesses(dets) ensures t in Handednesses(init) + {dets[|dets| - 1].handedness} {
      var k :| 0 <= k < |dets| && dets[k].handedness == t;
      if k < |dets| - 1 { assert init[k] == dets[k]; }
    }
    forall t | t in Handednesses(init) ensures t in Handednesses(dets) {
      var k :| 0 <= k < |init| && init[k].handedness == t;
      assert dets[k] == init[k];
    }
  }

  /**
   * One call of `drawHands`: the detections in the detector's order. They
   * add exactly the hands of indices not yet seen, leave every hand of an
   * index that was not detected untouched (there is no decay in this
   * sketch, so a frame without detections, or without a landmark list at
   * all, changes nothing), and keep every hand in the invariant.
   */
  function Apply(m: map<nat, HandState>, dets: seq<Detection>): (r: map<nat, HandState>)
    requires AllDetectionsWellFormed(dets)
    ensures m.Keys <= r.Keys
    decreases |dets|
  {
    if dets == [] then m else Visit(Apply(m, dets[..|dets| - 1]), dets[|dets| - 1])
  }

  /**
   * A frame's detections add exactly the hands of indices not yet seen and
   * leave every hand of an index that was not detected untouched.
   */
  lemma {:induction false} ApplyTouchesOnlyDetected(m: map<nat, HandState>, dets: seq<Detection>)
    requires AllDetectionsWellFormed(dets)
    ensures Apply(m, dets).Keys == m.Keys + Handednesses(dets)
    ensures forall t :: t in m && t !in Handednesses(dets) ==> Apply(m, dets)[t] == m[t]
    decreases |dets|
  {
    if dets != [] {
      ApplyTouchesOnlyDetected(m, dets[..|dets| - 1]);
      HandednessesSnoc(dets);
    }
  }

  /** Every hand stays in the invariant across the detections of a frame. */
  lemma {:induction false} ApplyKeepsInv(m: map<nat, HandState>, dets: seq<Detection>)
    requires AllDetectionsWellFormed(dets) && AllInv(m)
    ensures AllInv(Apply(m, dets))
    decreases |dets|
  {
    if dets != [] {
      ApplyKeepsInv(m, dets[..|dets| - 1]);
    }
  }
}
