// The two numeric helpers of utils.js. JavaScript has a single number type;
// the pinch and palm counters only ever hold integers, so `Clamp` is given on
// `int` (for the counters) and `ClampReal` on `real` (for `Map`).

module Utils {

  /** `Math.min(Math.max(v, min), max)`: the minimum is applied last. */
  function Clamp(v: int, min: int, max: int): (r: int)
    ensures min <= max ==> min <= r <= max
    ensures min <= v <= max ==> r == v
    ensures min <= max && v < min ==> r == min
    ensures v > max ==> r == max
    ensures min > max ==> r == max
  {
    var low := if v < min then min else v;
    if low > max then max else low
  }

  lemma ClampIdempotent(v: int, min: int, max: int)
    ensures Clamp(Clamp(v, min, max), min, max) == Clamp(v, min, max)
  {
  }

  /** The same helper over exact reals. */
  function ClampReal(v: real, min: real, max: real): (r: real)
    ensures min <= max ==> min <= r <= max
    ensures min <= v <= max ==> r == v
    ensures min <= max && v < min ==> r == min
    ensures v > max ==> r == max
    ensures min > max ==> r == max
  {
    var low := if v < min then min else v;
    if low > max then max else low
  }

  /**
   * Linear re-mapping of `n` from [start1, stop1] onto [start2, stop2],
   * optionally clamped to [start2, stop2] as written (not to the interval
   * between the two bounds; see `MapReversedRangeIsConstant`).
   * When start1 == stop1 the source divides by zero: the unclamped value is
   * infinite or NaN, the clamped one start2 or stop2 (NaN for n == start1);
   * that input is excluded here.
   */
  function Map(n: real, start1: real, stop1: real, start2: real, stop2: real, withinbounds: bool): (r: real)
    requires start1 != stop1
    ensures !withinbounds ==> (r - start2) * (stop1 - start1) == (n - start1) * (stop2 - start2)
    ensures !withinbounds && n == start1 ==> r == start2
    ensures !withinbounds && n == stop1 ==> r == stop2
    ensures withinbounds && start2 <= stop2 ==> start2 <= r <= stop2
    ensures withinbounds && start2 <= stop2 && n == start1 ==> r == start2
    ensures withinbounds && start2 <= stop2 && n == stop1 ==> r == stop2
  {
    var q := (n - start1) / (stop1 - start1);
    var v := q * (stop2 - start2) + start2;
    assert q * (stop1 - start1) == n - start1;
    MulSwap(q, stop2 - start2, stop1 - start1);
    assert n == start1 ==> q == 0.0;
    assert n == stop1 ==> q == (stop1 - start1) / (stop1 - start1) == 1.0;
    if withinbounds then ClampReal(v, start2, stop2) else v
  }

  function MinReal(a: real, b: real): real { if a < b then a else b }
  function MaxReal(a: real, b: real): real { if a < b then b else a }

  lemma MulSwap(a: real, b: real, c: real)
    ensures (a * b) * c == (a * c) * b
  {
  }

  /**
   * As written, a reversed output range collapses: with `withinbounds` and
   * start2 > stop2 every input is mapped to stop2, because the clamp's lower
   * bound exceeds its upper bound.
   */
  lemma MapReversedRangeIsConstant(n: real, start1: real, stop1: real, start2: real, stop2: real)
    requires start1 != stop1 && start2 > stop2
    ensures Map(n, start1, stop1, start2, stop2, true) == stop2
  {
  }

  /**
   * With `withinbounds` and an ordered output range, the result is the
   * affine value clamped to [start2, stop2]; an affine value already inside
   * the range is returned unchanged.
   */
  lemma MapClampsAffine(n: real, start1: real, stop1: real, start2: real, stop2: real)
    requires start1 != stop1 && start2 <= stop2
    ensures Map(n, start1, stop1, start2, stop2, true) ==
      ClampReal(Map(n, start1, stop1, start2, stop2, false), start2, stop2)
    ensures start2 <= Map(n, start1, stop1, start2, stop2, false) <= stop2 ==>
      Map(n, start1, stop1, start2, stop2, true) == Map(n, start1, stop1, start2, stop2, false)
  {
  }

  /** A concrete instance: input 0 of [0, 1] onto [10, 0] should give 10, gives 0. */
  lemma MapReversedRangeCounterexample()
    ensures Map(0.0, 0.0, 1.0, 10.0, 0.0, false) == 10.0
    ensures Map(0.0, 0.0, 1.0, 10.0, 0.0, true) == 0.0
  {
  }

  /**
   * The evidently intended bounded map: the affine value clamped to the
   * interval between start2 and stop2, whichever of them is smaller.
   */
  function MapWithin(n: real, start1: real, stop1: real, start2: real, stop2: real): (r: real)
    requires start1 != stop1
    ensures start2 <= stop2 ==> start2 <= r <= stop2
    ensures stop2 <= start2 ==> stop2 <= r <= start2
    ensures n == start1 ==> r == start2
    ensures n == stop1 ==> r == stop2
    ensures start2 <= stop2 ==> r == Map(n, start1, stop1, start2, stop2, true)
    ensures MinReal(start2, stop2) <= Map(n, start1, stop1, start2, stop2, false) <= MaxReal(start2, stop2) ==>
      r == Map(n, start1, stop1, start2, stop2, false)
    ensures Map(n, start1, stop1, start2, stop2, false) < MinReal(start2, stop2) ==> r == MinReal(start2, stop2)
    ensures Map(n, start1, stop1, start2, stop2, false) > MaxReal(start2, stop2) ==> r == MaxReal(start2, stop2)
  {
    var v := Map(n, start1, stop1, start2, stop2, false);
    if start2 <= stop2 then ClampReal(v, start2, stop2) else ClampReal(v, stop2, start2)
  }
}
