// The objects of the gesture-recognizer sketch (gestureRecognizer.js):
// `Point`, whose `Draw` records a new target and eases toward it; `Hand`,
// whose `Draw` debounces the pinch, tracks the points and sets the origin;
// and `Tracker`, holding the sketch's `hands` by handedness index, whose
// `DrawHands` is the per-frame `drawHands`. Each mutating method is proved to
// follow the functions of module RecognizerSpec.

module Recognizer {
  import opened Landmarks
  import opened RecognizerSpec

  /** One tracked landmark of a hand. */
  class Point {
    var targetPos: Coords
    var pos: Coords
    const index: nat
    const easing: real
    const hand: nat

    constructor (coords: Coords, index: nat, hand: nat)
      ensures targetPos == coords && pos == coords
      ensures this.index == index && this.hand == hand && easing == POINT_EASING
    {
      targetPos, pos := coords, coords;
      this.index, this.hand := index, hand;
      easing := POINT_EASING;
    }

    /** Records the new target and eases the position toward it, key by key. */
    method Draw(coords: Coords)
      modifies this
      ensures targetPos == coords
      ensures pos == EaseCoords(old(pos), coords, easing)
    {
      targetPos := coords;
      pos := EaseCoords(pos, targetPos, easing);
    }
  }

  /** One detected hand and its tracked points. */
  class Hand {
    var points: seq<Point>
    var touching: bool
    var disconnectedFor: int
    var origin: Option<Origin>
    const handedness: nat

    /** The current position of each tracked point. */
    ghost var positions: seq<Coords>
    ghost var Repr: set<object>

    ghost predicate Valid()
      reads this, Repr
    {
      && this in Repr
      && |positions| == |points|
      && (forall i :: 0 <= i < |points| ==> points[i] in Repr)
      && (forall i :: 0 <= i < |points| ==>
            points[i].index == i && points[i].hand == handedness && points[i].easing == POINT_EASING)
      && (forall i :: 0 <= i < |points| ==> points[i].pos == positions[i])
      && (forall i, j :: 0 <= i < j < |points| ==> points[i] != points[j])
    }

    ghost function State(): HandState
      reads this
    {
      HandState(touching, disconnectedFor, origin, positions)
    }

    /** A new hand, zero-initialised, then drawn once with its first frame. */
    constructor (frame: Frame, handedness: nat)
      requires WellFormed(frame)
      ensures Valid() && fresh(Repr)
      ensures this.handedness == handedness
      ensures State() == Step(Initial(), frame)
    {
      points := [];
      touching := false;
      disconnectedFor := 0;
      origin := None;
      this.handedness := handedness;
      positions := [];
      Repr := {this};
      new;
      Draw(frame);
    }

    method Draw(frame: Frame)
      requires Valid() && WellFormed(frame)
      modifies Repr
      ensures Valid() && fresh(Repr - old(Repr))
      ensures State() == Step(old(State()), frame)
    {
      if frame.tipDistance < CLOSE_DISTANCE {
        touching := true;
        disconnectedFor := 0;
      } else if frame.tipDistance < FAR_DISTANCE {
        disconnectedFor := disconnectedFor + 1;
        if disconnectedFor >= RELEASE_FRAMES {
          touching := false;
        }
      } else {
        touching := false;
      }
      ghost var before := positions;
      TrackPoints(frame.coords);
      assert positions == Overwrite(before, frame.coords) by {
        assert forall j :: 0 <= j < |positions| ==> positions[j] == Overwrite(before, frame.coords)[j];
      }
      assert points[THUMB_TIP].pos == frame.coords[THUMB_TIP];
      assert points[INDEX_TIP].pos == frame.coords[INDEX_TIP];
      origin := if touching then Some(PinchOrigin(points[THUMB_TIP].pos, points[INDEX_TIP].pos)) else None;
    }

    /**
     * The per-landmark pass of `Hand.draw`: a new point is pushed on the
     * first sighting of an index, an existing one is drawn toward its
     * landmark.
     */
    method TrackPoints(coords: seq<Coords>)
      requires Valid()
      modifies Repr
      ensures Valid() && fresh(Repr - old(Repr))
      ensures touching == old(touching) && disconnectedFor == old(disconnectedFor) && origin == old(origin)
      ensures |points| == Max(|old(points)|, |coords|)
      ensures forall j :: 0 <= j < |old(points)| ==> points[j] == old(points[j])
      ensures forall j :: 0 <= j < |points| ==>
        positions[j] == if j < |coords| then coords[j] else old(positions)[j]
    {
      var i := 0;
      while i < |coords|
        invariant 0 <= i <= |coords|
        invariant Valid() && fresh(Repr - old(Repr))
        invariant touching == old(touching) && disconnectedFor == old(disconnectedFor) && origin == old(origin)
        invariant |points| == Max(|old(points)|, i)
        invariant forall j :: 0 <= j < |old(points)| ==> points[j] == old(points[j])
        invariant forall j :: 0 <= j < |points| ==>
          positions[j] == if j < i then coords[j] else old(positions)[j]
      {
        TrackOne(i, coords[i]);
        i := i + 1;
      }
    }

    /** The callback's body for landmark `i`: a pushed point, or a draw of the existing one. */
    method TrackOne(i: nat, c: Coords)
      requires Valid() && i <= |points|
      modifies Repr
      ensures Valid() && fresh(Repr - old(Repr))
      ensures touching == old(touching) && disconnectedFor == old(disconnectedFor) && origin == old(origin)
      ensures |points| == Max(|old(points)|, i + 1)
      ensures forall j :: 0 <= j < |old(points)| ==> points[j] == old(points[j])
      ensures positions == if i < |old(points)| then old(positions)[i := c] else old(positions) + [c]
    {
      if i < |points| {
        points[i].Draw(c);
        positions := positions[i := points[i].pos];
      } else {
        var p := new Point(c, i, handedness);
        points := points + [p];
        positions := positions + [c];
        Repr := Repr + {p};
      }
    }
  }

  /** The sketch's `hands`, keyed by the handedness index of the detector. */
  class Tracker {
    var hands: map<nat, Hand>
    ghost var Repr: set<object>

    ghost predicate Valid()
      reads this, Repr
    {
      && this in Repr
      && (forall t :: t in hands ==> hands[t] in Repr && hands[t].Repr <= Repr && this !in hands[t].Repr)
      && (forall t :: t in hands ==> hands[t].handedness == t && hands[t].Valid())
      && (forall t, u :: t in hands && u in hands && t != u ==> hands[t].Repr !! hands[u].Repr)
    }

    ghost function Model(): map<nat, HandState>
      reads this, Repr
      requires Valid()
    {
      map t | t in hands :: hands[t].State()
    }

    constructor ()
      ensures Valid() && fresh(Repr) && Model() == map[]
    {
      hands := map[];
      Repr := {this};
    }

    /** One frame: each detection creates or draws the hand of its index. */
    method DrawHands(dets: seq<Detection>)
      requires Valid() && AllDetectionsWellFormed(dets)
      modifies Repr
      ensures Valid() && fresh(Repr - old(Repr))
      ensures Model() == Apply(old(Model()), dets)
      ensures forall t :: t in old(hands) ==> t in hands && hands[t] == old(hands[t])
    {
      ghost var start := Model();
      ghost var m := start;
      var i := 0;
      while i < |dets|
        invariant 0 <= i <= |dets|
        invariant Valid() && fresh(Repr - old(Repr))
        invariant Model() == m
        invariant m == Apply(start, dets[..i])
        invariant forall t :: t in old(hands) ==> t in hands && hands[t] == old(hands[t])
      {
        DrawHand(dets[i]);
        ApplyPrefixStep(start, dets, i);
        m := Visit(m, dets[i]);
        i := i + 1;
      }
      assert dets[..|dets|] == dets;
    }

    /** The body of the per-detection loop of `drawHands`. */
    method DrawHand(d: Detection)
      requires Valid() && WellFormed(d.frame)
      modifies Repr
      ensures Valid() && fresh(Repr - old(Repr))
      ensures Model() == Visit(old(Model()), d)
      ensures forall t :: t in old(hands) ==> t in hands && hands[t] == old(hands[t])
    {
      if d.handedness !in hands {
        AddHand(d);
      } else {
        RedrawHand(d);
      }
    }

    /** First sighting of an index: a new `Hand`, drawn once by its constructor. */
    method AddHand(d: Detection)
      requires Valid() && WellFormed(d.frame) && d.handedness !in hands
      modifies this
      ensures Valid() && fresh(Repr - old(Repr))
      ensures hands.Keys == old(hands).Keys + {d.handedness}
      ensures forall t :: t in old(hands) ==> hands[t] == old(hands[t])
      ensures Model() == old(Model())[d.handedness := Step(Initial(), d.frame)]
    {
      ghost var before := Model();
      var hand := new Hand(d.frame, d.handedness);
      ghost var first := hand.State();
      assert Valid() && Model() == before;
      Adopt(hand);
      assert hand.State() == first == Step(Initial(), d.frame);
      assert Model() == before[d.handedness := first];
    }

    // `Adopt`, `HandFramed` and `ApplyPrefixStep` follow their namesakes in
    // module Landmarker: both sketches store and redraw hands alike.

    /** Stores a hand that shares no object with the others under its index. */
    method Adopt(hand: Hand)
      requires Valid() && hand.Valid() && hand.handedness !in hands
      requires hand.Repr !! Repr
      modifies this
      ensures Valid() && Repr == old(Repr) + hand.Repr
      ensures hands == old(hands)[hand.handedness := hand]
      ensures Model() == old(Model())[hand.handedness := hand.State()]
    {
      var k := hand.handedness;
      hands := hands[k := hand];
      Repr := Repr + hand.Repr;
      forall t, u | t in hands && u in hands && t != u
        ensures hands[t].Repr !! hands[u].Repr
      {
        if t == k {
          assert hands[u].Repr <= old(Repr);
        } else if u == k {
          assert hands[t].Repr <= old(Repr);
        } else {
          assert old(hands[t].Repr !! hands[u].Repr);
        }
      }
      assert Valid();
      ghost var expected := old(Model())[k := hand.State()];
      assert Model().Keys == expected.Keys;
      forall t | t in expected
        ensures Model()[t] == expected[t]
      {
        if t != k {
          assert hands[t] == old(hands[t]);
          assert hands[t].State() == old(hands[t].State());
        }
      }
      assert Model() == expected;
    }

    /** A later sighting: the existing `Hand` of that index is drawn in place. */
    method RedrawHand(d: Detection)
      requires Valid() && WellFormed(d.frame) && d.handedness in hands
      modifies Repr
      ensures Valid() && fresh(Repr - old(Repr))
      ensures hands == old(hands)
      ensures Model() == old(Model())[d.handedness := Step(old(Model())[d.handedness], d.frame)]
    {
      var k := d.handedness;
      var hand := hands[k];
      ghost var before := Model();
      assert before[k] == hand.State();
      hand.Draw(d.frame);
      Repr := Repr + hand.Repr;
      forall t | t in hands && t != k
        ensures hands[t].Repr == old(hands[t].Repr) && hands[t].Valid()
        ensures hands[t].State() == before[t]
      {
        assert old(hands[t].Repr) !! old(hand.Repr);
        HandFramed(hands[t]);
      }
      forall t, u | t in hands && u in hands && t != u
        ensures hands[t].Repr !! hands[u].Repr
      {
        if t == k {
          assert hands[u].Repr <= old(Repr);
        } else if u == k {
          assert hands[t].Repr <= old(Repr);
        }
      }
      assert Valid();
      ghost var after := Model();
      assert after.Keys == before.Keys;
      assert after[k] == Step(before[k], d.frame);
      MapUpdated(before, after, k);
    }
  }

  /** A hand none of whose objects changed is still valid and in the same state. */
  twostate lemma HandFramed(h: Hand)
    requires old(h.Valid()) && unchanged(old(h.Repr))
    ensures h.Repr == old(h.Repr) && h.Valid() && h.State() == old(h.State())
  {
  }

  lemma ApplyPrefixStep(start: map<nat, HandState>, dets: seq<Detection>, i: nat)
    requires AllDetectionsWellFormed(dets) && i < |dets|
    ensures Apply(start, dets[..i + 1]) == Visit(Apply(start, dets[..i]), dets[i])
  {
    assert dets[..i + 1][..i] == dets[..i];
  }
}
