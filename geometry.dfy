/**
 * Points and the clamping primitives of radar.js: bounded_interval,
 * bounded_ring and bounded_box. Coordinates are exact reals.
 */
module Geometry {

  datatype Cartesian = Cartesian(x: real, y: real)

  /** A point in polar form: angle t (radians) and radius r. */
  datatype Polar = Polar(t: real, r: real)

  function Min(a: real, b: real): real { if a <= b then a else b }

  function Max(a: real, b: real): real { if a <= b then b else a }

  function Abs(a: real): real { if a < 0.0 then -a else a }

  /** True when v lies between a and b, in whichever order they are given. */
  predicate Between(v: real, a: real, b: real) {
    Min(a, b) <= v <= Max(a, b)
  }

  /**
   * bounded_interval(value, min, max): the value clamped into the interval
   * spanned by the two bounds, whichever of them is the larger.
   */
  function BoundedInterval(value: real, min: real, max: real): (r: real)
    ensures Between(r, min, max)
    ensures Between(value, min, max) ==> r == value
    ensures value < Min(min, max) ==> r == Min(min, max)
    ensures value > Max(min, max) ==> r == Max(min, max)
  {
    var low := Min(min, max);
    var high := Max(min, max);
    Min(Max(value, low), high)
  }

  /** Swapping the two bounds does not change the clamped value. */
  lemma BoundedIntervalSymmetric(value: real, a: real, b: real)
    ensures BoundedInterval(value, a, b) == BoundedInterval(value, b, a)
  {
  }

  /** Clamping twice is clamping once. */
  lemma BoundedIntervalIdempotent(value: real, a: real, b: real)
    ensures BoundedInterval(BoundedInterval(value, a, b), a, b) == BoundedInterval(value, a, b)
  {
  }

  /** The clamp is monotone in the value. */
  lemma BoundedIntervalMonotone(v: real, w: real, a: real, b: real)
    requires v <= w
    ensures BoundedInterval(v, a, b) <= BoundedInterval(w, a, b)
  {
  }

  /** The clamped value is the point of the interval nearest to the value. */
  lemma BoundedIntervalNearest(value: real, a: real, b: real, w: real)
    requires Between(w, a, b)
    ensures Abs(BoundedInterval(value, a, b) - value) <= Abs(w - value)
  {
  }

  /** bounded_ring: keeps the angle and clamps the radius into [r_min, r_max]. */
  function BoundedRing(p: Polar, rMin: real, rMax: real): (q: Polar)
    ensures q.t == p.t
    ensures Between(q.r, rMin, rMax)
    ensures Between(p.r, rMin, rMax) ==> q == p
    ensures p.r < Min(rMin, rMax) ==> q.r == Min(rMin, rMax)
    ensures p.r > Max(rMin, rMax) ==> q.r == Max(rMin, rMax)
  {
    Polar(p.t, BoundedInterval(p.r, rMin, rMax))
  }

  /** True when both coordinates of p lie in the box spanned by corners a and b. */
  predicate InBox(p: Cartesian, a: Cartesian, b: Cartesian) {
    Between(p.x, a.x, b.x) && Between(p.y, a.y, b.y)
  }

  /** bounded_box: clamps x and y independently into the box spanned by min and max. */
  function BoundedBox(p: Cartesian, min: Cartesian, max: Cartesian): (q: Cartesian)
    ensures InBox(q, min, max)
    ensures InBox(p, min, max) ==> q == p
    ensures Between(p.x, min.x, max.x) ==> q.x == p.x
    ensures Between(p.y, min.y, max.y) ==> q.y == p.y
    ensures p.x < Min(min.x, max.x) ==> q.x == Min(min.x, max.x)
    ensures p.x > Max(min.x, max.x) ==> q.x == Max(min.x, max.x)
    ensures p.y < Min(min.y, max.y) ==> q.y == Min(min.y, max.y)
    ensures p.y > Max(min.y, max.y) ==> q.y == Max(min.y, max.y)
  {
    Cartesian(BoundedInterval(p.x, min.x, max.x), BoundedInterval(p.y, min.y, max.y))
  }

  /** Each axis of bounded_box depends on that axis of the point alone. */
  lemma BoundedBoxAxesIndependent(p: Cartesian, p': Cartesian, min: Cartesian, max: Cartesian)
    ensures p.x == p'.x ==> BoundedBox(p, min, max).x == BoundedBox(p', min, max).x
    ensures p.y == p'.y ==> BoundedBox(p, min, max).y == BoundedBox(p', min, max).y
  {
  }

  /** Clamping into a box twice is clamping once. */
  lemma BoundedBoxIdempotent(p: Cartesian, min: Cartesian, max: Cartesian)
    ensures BoundedBox(BoundedBox(p, min, max), min, max) == BoundedBox(p, min, max)
  {
  }

  /** Clamping a radius twice is clamping once, and the angle is never touched. */
  lemma BoundedRingIdempotent(p: Polar, rMin: real, rMax: real)
    ensures BoundedRing(BoundedRing(p, rMin, rMax), rMin, rMax) == BoundedRing(p, rMin, rMax)
  {
  }
}
