// The objects of the hand-landmarker sketch (main.js): `Point`, whose
// position is eased toward its target in place; `Hand`, whose `Draw` updates
// the pinch and open-palm counters, the tracked points and the origin; and
// `Tracker`, holding the sketch's `hands` by handedness index, whose
// `DrawHands` is the per-frame `drawHands`. Each mutating method is proved
// to follow the functions of module LandmarkerSpec.

module Landmarker {
  import opened Utils
  import opened Landmarks
  import opened LandmarkerSpec

  /** One tracked landmark of a hand. */
  class Point {
    var targetPos: Coords
    var pos: Coords
    const index: nat
    const easing: real
    const hand: nat

    constructor (coords: Coords, index: nat, hand: nat)
      ensures targetPos == coords && pos == coords
      ensures this.index == index && this.hand == hand && easing == POINT_EASING
    {
      targetPos, pos := coords, coords;
      this.index, this.hand := index, hand;
      easing := POINT_EASING;
    }

    /** Records a new target; the position moves only when the point is drawn. */
    method Update(coords: Coords)
      modifies this
      ensures targetPos == coords && pos == old(pos)
    {
      targetPos := coords;
    }

    /** Eases the position toward the target, key by key. */
    method Draw()
      modifies this
      ensures targetPos == old(targetPos)
      ensures pos == EaseCoords(old(pos), targetPos, easing)
    {
      pos := EaseCoords(pos, targetPos, easing);
    }
  }

  /**
   * The finger loop of `Hand.draw`: the frame is an open palm when the hand
   * is not pinching, the palm is extended, and each finger from base landmark
   * 5 in steps of 4 is extended.
   */
  method OpenPalmScan(touching: bool, frame: Frame) returns (openPalm: bool)
    requires WellFormed(frame)
    ensures openPalm == IsOpenPalm(touching, frame)
  {
    openPalm := !touching;
    openPalm := openPalm && frame.palmExtended;
    var f := 5;
    var finger := 0;
    while f < |frame.coords|
      invariant 0 <= finger <= FINGERS && f == 5 + 4 * finger
      invariant openPalm == (!touching && frame.palmExtended &&
        forall k :: 0 <= k < finger ==> frame.fingersExtended[k])
    {
      openPalm := openPalm && frame.fingersExtended[finger];
      f, finger := f + 4, finger + 1;
    }
  }

  /** One detected hand and its 21 tracked points. */
  class Hand {
    var points: seq<Point>
    var touching: bool
    var indexThumbCounter: int
    var openPalmCounter: int
    var origin: Option<Origin>
    const handedness: nat

    /** The current position of each tracked point. */
    ghost var positions: seq<Coords>
    ghost var Repr: set<object>

    ghost predicate Valid()
      reads this, Repr
    {
      && this in Repr
      && |positions| == |points|
      && (forall i :: 0 <= i < |points| ==> points[i] in Repr)
      && (forall i :: 0 <= i < |points| ==>
            points[i].index == i && points[i].hand == handedness && points[i].easing == POINT_EASING)
      && (forall i :: 0 <= i < |points| ==> points[i].pos == positions[i])
      && (forall i, j :: 0 <= i < j < |points| ==> points[i] != points[j])
    }

    ghost function State(): HandState
      reads this
    {
      HandState(touching, indexThumbCounter, openPalmCounter, origin, positions)
    }

    /** A new hand, zero-initialised, then drawn once with its first frame. */
    constructor (frame: Frame, handedness: nat)
      requires WellFormed(frame)
      ensures Valid() && fresh(Repr)
      ensures this.handedness == handedness
      ensures State() == Step(Initial(), frame)
    {
      points := [];
      touching := false;
      indexThumbCounter := 0;
      openPalmCounter := 0;
      origin := None;
      this.handedness := handedness;
      positions := [];
      Repr := {this};
      new;
      Draw(frame);
    }

    method Draw(frame: Frame)
      requires Valid() && WellFormed(frame)
      modifies Repr
      ensures Valid() && fresh(Repr - old(Repr))
      ensures State() == Step(old(State()), frame)
    {
      UpdateCounters(frame);
      ghost var before := positions;
      TrackPoints(frame.coords);
      DrawPoints(frame.coords);
      assert positions == Overwrite(before, frame.coords) by {
        assert forall j :: 0 <= j < |positions| ==> positions[j] == Overwrite(before, frame.coords)[j];
      }
      assert points[THUMB_TIP].pos == frame.coords[THUMB_TIP];
      assert points[INDEX_TIP].pos == frame.coords[INDEX_TIP];
      origin := if touching then Some(PinchOrigin(points[THUMB_TIP].pos, points[INDEX_TIP].pos)) else None;
    }

    /** The open-palm decrement `drawHands` applies to a hand in a frame without detections. */
    method DecayOpenPalm()
      requires Valid()
      modifies this
      ensures Valid() && Repr == old(Repr) && points == old(points)
      ensures State() == Decay(old(State()))
    {
      openPalmCounter := Clamp(openPalmCounter - 1, 0, PALM_MAX);
    }

    /** The counter and flag updates at the head of `Hand.draw`. */
    method UpdateCounters(frame: Frame)
      requires WellFormed(frame)
      modifies this
      ensures points == old(points) && positions == old(positions) && Repr == old(Repr) && origin == old(origin)
      ensures var r := Step(old(State()), frame);
        indexThumbCounter == r.indexThumbCounter && touching == r.touching && openPalmCounter == r.openPalmCounter
    {
      if frame.tipDistance < CLOSE_DISTANCE {
        indexThumbCounter := indexThumbCounter + 1;
      } else if frame.tipDistance < FAR_DISTANCE {
        indexThumbCounter := indexThumbCounter - 1;
      } else {
        indexThumbCounter := 0;
      }
      indexThumbCounter := Clamp(indexThumbCounter, 0, PINCH_MAX);
      touching :=
        if indexThumbCounter == PINCH_MAX then true
        else if indexThumbCounter == 0 then false
        else touching;

      var openPalm := OpenPalmScan(touching, frame);
      openPalmCounter := Clamp(openPalmCounter + (if openPalm then 1 else -1), 0, PALM_MAX);
    }

    /**
     * The nested loop of `Hand.draw`: landmark 0 alone, then 1 .. 4, 5 .. 8,
     * 9 .. 12, 13 .. 16 and 17 .. 20, creating the point of an index on its
     * first sighting and setting the target of an existing one.
     */
    method TrackPoints(coords: seq<Coords>)
      requires Valid() && |coords| == LANDMARKS
      modifies Repr
      ensures Valid() && fresh(Repr - old(Repr))
      ensures touching == old(touching) && indexThumbCounter == old(indexThumbCounter)
      ensures openPalmCounter == old(openPalmCounter) && origin == old(origin)
      ensures |points| == Max(|old(points)|, |coords|)
      ensures forall j :: 0 <= j < |old(points)| ==> points[j] == old(points[j])
      ensures forall j :: 0 <= j < |coords| ==> points[j].targetPos == coords[j]
      ensures forall j :: 0 <= j < |points| ==>
        positions[j] == if j < |old(points)| then old(positions)[j] else coords[j]
    {
      var increment := 1;
      var f := 0;
      while f < |coords|
        invariant 0 <= f <= |coords|
        invariant f == 0 || (f - 1) % 4 == 0
        invariant increment == if f <= 1 then 1 else 4
        invariant Valid() && fresh(Repr - old(Repr))
        invariant touching == old(touching) && indexThumbCounter == old(indexThumbCounter)
        invariant openPalmCounter == old(openPalmCounter) && origin == old(origin)
        invariant |points| == Max(|old(points)|, f)
        invariant forall j :: 0 <= j < |old(points)| ==> points[j] == old(points[j])
        invariant forall j :: 0 <= j < f ==> points[j].targetPos == coords[j]
        invariant forall j :: 0 <= j < |points| ==>
          positions[j] == if j < |old(points)| then old(positions)[j] else coords[j]
      {
        if f == 1 {
          increment := 4;
        }
        TrackGroup(coords, f, increment);
        f := f + increment;
      }
    }

    /** One pass of the inner loop: landmarks `f` .. `f + count - 1`. */
    method TrackGroup(coords: seq<Coords>, f: nat, count: nat)
      requires Valid() && f + count <= |coords| && |points| >= f
      modifies Repr
      ensures Valid() && fresh(Repr - old(Repr))
      ensures touching == old(touching) && indexThumbCounter == old(indexThumbCounter)
      ensures openPalmCounter == old(openPalmCounter) && origin == old(origin)
      ensures |points| == Max(|old(points)|, f + count)
      ensures forall j :: 0 <= j < |old(points)| ==> points[j] == old(points[j])
      ensures forall j :: 0 <= j < f ==> points[j] == old(points[j]) && points[j].targetPos == old(points[j].targetPos)
      ensures forall j :: f <= j < f + count ==> points[j].targetPos == coords[j]
      ensures forall j :: 0 <= j < |points| ==>
        positions[j] == if j < |old(points)| then old(positions)[j] else coords[j]
    {
      var i := f;
      while i < f + count
        invariant f <= i <= f + count
        invariant Valid() && fresh(Repr - old(Repr))
        invariant touching == old(touching) && indexThumbCounter == old(indexThumbCounter)
        invariant openPalmCounter == old(openPalmCounter) && origin == old(origin)
        invariant |points| == Max(|old(points)|, i)
        invariant forall j :: 0 <= j < |old(points)| ==> points[j] == old(points[j])
        invariant forall j :: 0 <= j < f ==> points[j] == old(points[j]) && points[j].targetPos == old(points[j].targetPos)
        invariant forall j :: f <= j < i ==> points[j].targetPos == coords[j]
        invariant forall j :: 0 <= j < |points| ==>
          positions[j] == if j < |old(points)| then old(positions)[j] else coords[j]
      {
        TrackOne(i, coords[i]);
        i := i + 1;
      }
    }

    /** The inner loop's body for landmark `i`: a new point, or a new target for the existing one. */
    method TrackOne(i: nat, c: Coords)
      requires Valid() && i <= |points|
      modifies Repr
      ensures Valid() && fresh(Repr - old(Repr))
      ensures touching == old(touching) && indexThumbCounter == old(indexThumbCounter)
      ensures openPalmCounter == old(openPalmCounter) && origin == old(origin)
      ensures |points| == Max(|old(points)|, i + 1)
      ensures points[i].targetPos == c
      ensures forall j :: 0 <= j < |old(points)| ==> points[j] == old(points[j])
      ensures forall j :: 0 <= j < |old(points)| && j != i ==>
        points[j] == old(points[j]) && points[j].targetPos == old(points[j].targetPos)
      ensures positions == if i < |old(points)| then old(positions) else old(positions) + [c]
    {
      if i < |points| {
        points[i].Update(c);
      } else {
        var p := new Point(c, i, handedness);
        points := points + [p];
        positions := positions + [c];
        Repr := Repr + {p};
      }
    }

    /** The drawing loop of `Hand.draw`: every point of the frame is eased to its target. */
    method DrawPoints(coords: seq<Coords>)
      requires Valid() && |coords| <= |points|
      requires forall j :: 0 <= j < |coords| ==> points[j].targetPos == coords[j]
      modifies Repr
      ensures Valid() && Repr == old(Repr) && points == old(points)
      ensures touching == old(touching) && indexThumbCounter == old(indexThumbCounter)
      ensures openPalmCounter == old(openPalmCounter) && origin == old(origin)
      ensures positions == Overwrite(old(positions), coords)
    {
      var p := 0;
      while p < |coords|
        invariant 0 <= p <= |coords|
        invariant Valid() && Repr == old(Repr) && points == old(points)
        invariant touching == old(touching) && indexThumbCounter == old(indexThumbCounter)
        invariant openPalmCounter == old(openPalmCounter) && origin == old(origin)
        invariant forall j :: p <= j < |coords| ==> points[j].targetPos == coords[j]
        invariant |positions| == |old(positions)|
        invariant forall j :: 0 <= j < |positions| ==>
          positions[j] == if j < p then coords[j] else old(positions)[j]
      {
        points[p].Draw();
        positions := positions[p := points[p].pos];
        p := p + 1;
      }
      assert forall j :: 0 <= j < |positions| ==> positions[j] == Overwrite(old(positions), coords)[j];
    }
  }

  /** The sketch's `hands`, keyed by the detector's handedness index. */
  class Tracker {
    var hands: map<nat, Hand>
    ghost var Repr: set<object>

    ghost predicate Valid()
      reads this, Repr
    {
      && this in Repr
      && (forall t :: t in hands ==> hands[t] in Repr && hands[t].Repr <= Repr && this !in hands[t].Repr)
      && (forall t :: t in hands ==> hands[t].handedness == t && hands[t].Valid())
      && (forall t, u :: t in hands && u in hands && t != u ==> hands[t].Repr !! hands[u].Repr)
    }

    ghost function Model(): map<nat, HandState>
      reads this, Repr
      requires Valid()
    {
      map t | t in hands :: hands[t].State()
    }

    constructor ()
      ensures Valid() && fresh(Repr) && Model() == map[]
    {
      hands := map[];
      Repr := {this};
    }

    /**
     * One frame: with no detection, every hand's open-palm counter decays;
     * otherwise each detection creates or draws the hand of its index.
     */
    method DrawHands(dets: seq<Detection>)
      requires Valid() && AllDetectionsWellFormed(dets)
      modifies Repr
      ensures Valid() && fresh(Repr - old(Repr))
      ensures Model() == DrawFrame(old(Model()), dets)
      ensures forall t :: t in old(hands) ==> t in hands && hands[t] == old(hands[t])
    {
      if dets == [] {
        DecayAll();
        return;
      }
      ghost var start := Model();
      ghost var m := start;
      var i := 0;
      while i < |dets|
        invariant 0 <= i <= |dets|
        invariant Valid() && fresh(Repr - old(Repr))
        invariant Model() == m
        invariant m == Apply(start, dets[..i])
        invariant forall t :: t in old(hands) ==> t in hands && hands[t] == old(hands[t])
      {
        DrawHand(dets[i]);
        ApplyPrefixStep(start, dets, i);
        m := Visit(m, dets[i]);
        i := i + 1;
      }
      assert dets[..|dets|] == dets;
    }

    /** The body of the per-detection loop of `drawHands`. */
    method DrawHand(d: Detection)
      requires Valid() && WellFormed(d.frame)
      modifies Repr
      ensures Valid() && fresh(Repr - old(Repr))
      ensures Model() == Visit(old(Model()), d)
      ensures forall t :: t in old(hands) ==> t in hands && hands[t] == old(hands[t])
    {
      if d.handedness !in hands {
        AddHand(d);
      } else {
        RedrawHand(d);
      }
    }

    /** First sighting of an index: a new `Hand`, drawn once by its constructor. */
    method AddHand(d: Detection)
      requires Valid() && WellFormed(d.frame) && d.handedness !in hands
      modifies this
      ensures Valid() && fresh(Repr - old(Repr))
      ensures hands.Keys == old(hands).Keys + {d.handedness}
      ensures forall t :: t in old(hands) ==> hands[t] == old(hands[t])
      ensures Model() == old(Model())[d.handedness := Step(Initial(), d.frame)]
    {
      ghost var before := Model();
      var hand := new Hand(d.frame, d.handedness);
      ghost var first := hand.State();
      assert Valid() && Model() == before;
      Adopt(hand);
      assert hand.State() == first == Step(Initial(), d.frame);
      assert Model() == before[d.handedness := first];
    }

    /** Stores a hand that no other hand shares objects with under its index. */
    method Adopt(hand: Hand)
      requires Valid() && hand.Valid() && hand.handedness !in hands
      requires hand.Repr !! Repr
      modifies this
      ensures Valid() && Repr == old(Repr) + hand.Repr
      ensures hands == old(hands)[hand.handedness := hand]
      ensures Model() == old(Model())[hand.handedness := hand.State()]
    {
      var k := hand.handedness;
      hands := hands[k := hand];
      Repr := Repr + hand.Repr;
      forall t, u | t in hands && u in hands && t != u
        ensures hands[t].Repr !! hands[u].Repr
      {
        if t == k {
          assert hands[u].Repr <= old(Repr);
        } else if u == k {
          assert hands[t].Repr <= old(Repr);
        } else {
          assert old(hands[t].Repr !! hands[u].Repr);
        }
      }
      assert Valid();
      ghost var expected := old(Model())[k := hand.State()];
      assert Model().Keys == expected.Keys;
      forall t | t in expected
        ensures Model()[t] == expected[t]
      {
        if t != k {
          assert hands[t] == old(hands[t]);
          assert hands[t].State() == old(hands[t].State());
        }
      }
      assert Model() == expected;
    }

    /** A later sighting: the existing `Hand` of that index is drawn in place. */
    method RedrawHand(d: Detection)
      requires Valid() && WellFormed(d.frame) && d.handedness in hands
      modifies Repr
      ensures Valid() && fresh(Repr - old(Repr))
      ensures hands == old(hands)
      ensures Model() == old(Model())[d.handedness := Step(old(Model())[d.handedness], d.frame)]
    {
      var k := d.handedness;
      var hand := hands[k];
      ghost var before := Model();
      assert before[k] == hand.State();
      hand.Draw(d.frame);
      Repr := Repr + hand.Repr;
      forall t | t in hands && t != k
        ensures hands[t].Repr == old(hands[t].Repr) && hands[t].Valid()
        ensures hands[t].State() == before[t]
      {
        assert old(hands[t].Repr) !! old(hand.Repr);
        HandFramed(hands[t]);
      }
      forall t, u | t in hands && u in hands && t != u
        ensures hands[t].Repr !! hands[u].Repr
      {
        if t == k {
          assert hands[u].Repr <= old(Repr);
        } else if u == k {
          assert hands[t].Repr <= old(Repr);
        }
      }
      assert Valid();
      ghost var after := Model();
      assert after.Keys == before.Keys;
      assert after[k] == Step(before[k], d.frame);
      MapUpdated(before, after, k);
    }

    /** The no-detection branch of `drawHands`. */
    method DecayAll()
      requires Valid()
      modifies Repr
      ensures Valid() && Repr == old(Repr) && hands == old(hands)
      ensures Model() == DrawFrame(old(Model()), [])
    {
      ghost var start := Model();
      ghost var m := start;
      var todo := hands.Keys;
      while todo != {}
        invariant todo <= hands.Keys
        invariant Valid() && Repr == old(Repr) && hands == old(hands)
        invariant Model() == m
        invariant PartlyDecayed(start, m, todo)
        decreases todo
      {
        var t :| t in todo;
        DecayHand(t);
        PartlyDecayedStep(start, m, todo, t);
        m := m[t := Decay(m[t])];
        todo := todo - {t};
      }
      PartlyDecayedDone(start, m);
    }

    /** The decrement of one hand's open-palm counter in that branch. */
    method DecayHand(t: nat)
      requires Valid() && t in hands
      modifies hands[t]
      ensures Valid() && Repr == old(Repr) && hands == old(hands)
      ensures Model() == old(Model())[t := Decay(old(Model())[t])]
    {
      var hand := hands[t];
      ghost var before := Model();
      ghost var s0 := hand.State();
      assert before[t] == s0;
      hand.DecayOpenPalm();
      assert hand.State() == Decay(s0);
      forall u | u in hands && u != t
        ensures hands[u].Repr == old(hands[u].Repr) && hands[u].Valid() && hands[u].State() == before[u]
      {
        assert hand !in hands[u].Repr;
      }
      assert Valid();
      ghost var after := Model();
      assert after.Keys == before.Keys;
      assert after[t] == Decay(before[t]);
      MapUpdated(before, after, t);
    }
  }

  /** A hand none of whose objects changed is still valid and in the same state. */
  twostate lemma HandFramed(h: Hand)
    requires old(h.Valid()) && unchanged(old(h.Repr))
    ensures h.Repr == old(h.Repr) && h.Valid() && h.State() == old(h.State())
  {
  }

  lemma ApplyPrefixStep(start: map<nat, HandState>, dets: seq<Detection>, i: nat)
    requires AllDetectionsWellFormed(dets) && i < |dets|
    ensures Apply(start, dets[..i + 1]) == Visit(Apply(start, dets[..i]), dets[i])
  {
    assert dets[..i + 1][..i] == dets[..i];
  }

  /** `m` is `start` with the hands outside `todo` decayed. */
  ghost predicate PartlyDecayed(start: map<nat, HandState>, m: map<nat, HandState>, todo: set<nat>)
  {
    m.Keys == start.Keys && forall u :: u in m ==> m[u] == if u in todo then start[u] else Decay(start[u])
  }

  lemma PartlyDecayedStep(start: map<nat, HandState>, m: map<nat, HandState>, todo: set<nat>, t: nat)
    requires PartlyDecayed(start, m, todo) && t in todo && t in m
    ensures PartlyDecayed(start, m[t := Decay(m[t])], todo - {t})
  {
  }

  lemma PartlyDecayedDone(start: map<nat, HandState>, m: map<nat, HandState>)
    requires PartlyDecayed(start, m, {})
    ensures m == DrawFrame(start, [])
  {
    assert forall u :: u in m ==> m[u] == DrawFrame(start, [])[u];
  }
}
