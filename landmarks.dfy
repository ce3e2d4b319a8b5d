// Value types and constants shared by both sketches: one landmark's
// coordinates, the thumb/index tip classification against the two fixed
// distance thresholds, the pinch origin, and the per-axis easing step that
// both tracked-point classes apply.

module Landmarks {

  datatype Option<T> = None | Some(value: T)

  /** A landmark or a tracked point's screen position. */
  datatype Coords = Coords(x: real, y: real, z: real)

  /** The 2D drawing cursor derived from a confirmed pinch. */
  datatype Origin = Origin(x: real, y: real)

  /** Landmarks per hand in the hand-model topology. */
  const LANDMARKS := 21
  /** Landmark 4 (the source calls it `indexFinger`) and landmark 8 (`thumb`). */
  const THUMB_TIP := 4
  const INDEX_TIP := 8

  const CLOSE_DISTANCE := 0.05
  const FAR_DISTANCE := 0.2

  /** Both `Point` classes are constructed with `easing = 1`. */
  const POINT_EASING := 1.0

  /** Where the planar distance between tips 4 and 8 falls. */
  datatype Band = Close | Mid | Far

  function BandOf(dist: real): (b: Band)
    ensures b == Close <==> dist < CLOSE_DISTANCE
    ensures b == Mid <==> CLOSE_DISTANCE <= dist < FAR_DISTANCE
    ensures b == Far <==> FAR_DISTANCE <= dist
  {
    if dist < CLOSE_DISTANCE then Close else if dist < FAR_DISTANCE then Mid else Far
  }

  function Max(a: int, b: int): int { if a < b then b else a }
  function Min(a: int, b: int): int { if a < b then a else b }

  /**
   * The origin as both sketches compute it: x is the mean of the two tips,
   * y is tip 4's y averaged with itself, so tip 8's y is ignored.
   */
  function PinchOrigin(thumb: Coords, index: Coords): (o: Origin)
    ensures o.x - thumb.x == index.x - o.x
    ensures o.y == thumb.y
  {
    Origin((thumb.x + index.x) / 2.0, (thumb.y + thumb.y) / 2.0)
  }

  /** One easing step of current value `c` toward target `t` with factor `e`. */
  function Ease(c: real, t: real, e: real): (r: real)
    ensures r - t == (c - t) * (1.0 - e)
  {
    c + (t - c) * e
  }

  /** `Ease` on each of x, y and z, as `Point.draw` does per key of the target. */
  function EaseCoords(c: Coords, t: Coords, e: real): (r: Coords)
    ensures e == 1.0 ==> r == t
  {
    Coords(Ease(c.x, t.x, e), Ease(c.y, t.y, e), Ease(c.z, t.z, e))
  }

  function Power(b: real, m: nat): real
  {
    if m == 0 then 1.0 else b * Power(b, m - 1)
  }

  /** `m` easing steps toward a fixed target. */
  function EaseSteps(c: real, t: real, e: real, m: nat): real
    decreases m
  {
    if m == 0 then c else EaseSteps(Ease(c, t, e), t, e, m - 1)
  }

  /** After m steps the distance to the target has shrunk by (1 - e)^m. */
  lemma {:induction false} EaseStepsDistance(c: real, t: real, e: real, m: nat)
    ensures EaseSteps(c, t, e, m) - t == (c - t) * Power(1.0 - e, m)
    decreases m
  {
    if m > 0 {
      var c1 := Ease(c, t, e);
      var d, k, p := c - t, 1.0 - e, Power(1.0 - e, m - 1);
      assert EaseSteps(c, t, e, m) == EaseSteps(c1, t, e, m - 1);
      EaseStepsDistance(c1, t, e, m - 1);
      assert Power(1.0 - e, m) == k * p;
      assert EaseSteps(c, t, e, m) - t == (c1 - t) * p;
      assert c1 - t == d * k;
      MulAssoc(d, k, p);
    }
  }

  lemma MulAssoc(a: real, b: real, c: real)
    ensures (a * b) * c == a * (b * c)
  {
  }

  /**
   * The positions after a frame's landmarks have been written over the
   * tracked points index by index: entries below |next| become next's, any
   * entries beyond are kept.
   */
  function Overwrite<T>(prev: seq<T>, next: seq<T>): (r: seq<T>)
    ensures |r| == Max(|prev|, |next|)
    ensures forall j :: 0 <= j < |r| ==> r[j] == if j < |next| then next[j] else prev[j]
    ensures |prev| <= |next| ==> r == next
  {
    if |prev| <= |next| then next else next + prev[|next|..]
  }

  /** Two maps with the same keys that differ at most at `k`. */
  lemma MapUpdated<V>(before: map<nat, V>, after: map<nat, V>, k: nat)
    requires k in before && after.Keys == before.Keys
    requires forall t :: t in after && t != k ==> after[t] == before[t]
    ensures after == before[k := after[k]]
  {
  }
}
