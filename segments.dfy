/**
 * The fixed quadrant and ring tables of radar.js, the bounds of one
 * (quadrant, ring) segment, and the viewport of a zoomed quadrant.
 */
module Segments {
  import opened Wrappers
  import opened Geometry

  /** Math.PI, written out to the digits JavaScript prints for it. */
  const Pi: real := 3.141592653589793

  /** One row of the quadrants table: angles as multiples of Pi, and the signs of the half-planes. */
  datatype Quadrant = Quadrant(radialMin: real, radialMax: real, factorX: int, factorY: int)

  const Quadrants: seq<Quadrant> := [
    Quadrant(0.0, 0.5, 1, 1),
    Quadrant(0.5, 1.0, -1, 1),
    Quadrant(-1.0, -0.5, -1, -1),
    Quadrant(-0.5, 0.0, 1, -1)
  ]

  /** The outer radius of each ring. */
  const RingRadii: seq<int> := [130, 220, 310, 400]

  /** The inner radius of ring 0. */
  const InnerRadius: int := 30

  /** The clearance kept between an entry and the drawn border of its segment. */
  const Clearance: int := 15

  /** The headroom added to the box's vertical extent per ring inside the outermost one. */
  const RingHeadroom: int := 90

  /** The bounds of one segment: the polar corners and the cartesian box corners. */
  datatype Segment = Segment(polarMin: Polar, polarMax: Polar, cartesianMin: Cartesian, cartesianMax: Cartesian)

  /** A ring index the tables can look up. */
  predicate ValidRing(ring: int) { 0 <= ring < |RingRadii| }

  /**
   * segment(quadrant, ring): the bounds of a segment. A ring outside 0..3
   * makes the lookups in the rings table fail, which is None here.
   */
  function SegmentOf(quadrant: nat, ring: int): (r: Option<Segment>)
    requires quadrant < |Quadrants|
    ensures r.Some? <==> ValidRing(ring)
    ensures r.Some? ==> r.value.polarMin.r < r.value.polarMax.r
    ensures r.Some? ==> r.value.polarMin.t < r.value.polarMax.t
    ensures r.Some? ==> r.value.polarMin.r + Clearance as real < r.value.polarMax.r - Clearance as real
    ensures r.Some? ==> r.value.polarMax.r == RingRadii[ring] as real
    ensures r.Some? ==> r.value.cartesianMin == Cartesian(15.0 * Quadrants[quadrant].factorX as real, 15.0 * Quadrants[quadrant].factorY as real)
  {
    if !ValidRing(ring) then None
    else
      var q := Quadrants[quadrant];
      var polarMin := Polar(q.radialMin * Pi, if ring == 0 then InnerRadius as real else RingRadii[ring - 1] as real);
      var polarMax := Polar(q.radialMax * Pi, RingRadii[ring] as real);
      var cartesianMin := Cartesian(Clearance as real * q.factorX as real, Clearance as real * q.factorY as real);
      var cartesianMax := Cartesian(RingRadii[3] as real * q.factorX as real,
                                    RingRadii[3] as real * q.factorY as real + ((4 - ring) * RingHeadroom) as real);
      Some(Segment(polarMin, polarMax, cartesianMin, cartesianMax))
  }

  /** Adjacent rings share their border: the inner radius of ring r+1 is the outer radius of ring r. */
  lemma RingsAdjacent(quadrant: nat, ring: nat)
    requires quadrant < |Quadrants| && ring + 1 < |RingRadii|
    ensures SegmentOf(quadrant, ring + 1).value.polarMin.r == SegmentOf(quadrant, ring).value.polarMax.r
    ensures SegmentOf(quadrant, 0).value.polarMin.r == InnerRadius as real
  {
  }

  /**
   * The four quadrants cover the circle: each spans a quarter turn, and
   * they follow each other q2, q3, q0, q1 from -Pi to Pi.
   */
  lemma QuadrantsTileCircle(ring: nat)
    requires ValidRing(ring)
    ensures forall q :: 0 <= q < |Quadrants| ==>
              SegmentOf(q, ring).value.polarMax.t - SegmentOf(q, ring).value.polarMin.t == Pi / 2.0
    ensures SegmentOf(2, ring).value.polarMin.t == -Pi && SegmentOf(1, ring).value.polarMax.t == Pi
    ensures SegmentOf(2, ring).value.polarMax.t == SegmentOf(3, ring).value.polarMin.t
    ensures SegmentOf(3, ring).value.polarMax.t == SegmentOf(0, ring).value.polarMin.t
    ensures SegmentOf(0, ring).value.polarMax.t == SegmentOf(1, ring).value.polarMin.t
  {
  }

  /**
   * The vertical extent of a segment's box: from 15 to 400 + (4 - ring) * 90
   * below the horizontal axis (factor_y = 1), and from -400 + (4 - ring) * 90
   * to -15 above it (factor_y = -1). The headroom grows towards the centre.
   */
  lemma SegmentBoxVerticalExtent(quadrant: nat, ring: int)
    requires quadrant < |Quadrants| && ValidRing(ring)
    ensures var s := SegmentOf(quadrant, ring).value;
            s.cartesianMax.x == 400.0 * Quadrants[quadrant].factorX as real
    ensures var s := SegmentOf(quadrant, ring).value;
            s.cartesianMax.y == 400.0 * Quadrants[quadrant].factorY as real + ((4 - ring) * 90) as real
    ensures var s := SegmentOf(quadrant, ring).value;
            Quadrants[quadrant].factorY == 1 ==>
              Min(s.cartesianMin.y, s.cartesianMax.y) == 15.0 &&
              Max(s.cartesianMin.y, s.cartesianMax.y) == (400 + (4 - ring) * 90) as real
    ensures var s := SegmentOf(quadrant, ring).value;
            Quadrants[quadrant].factorY == -1 ==>
              Min(s.cartesianMin.y, s.cartesianMax.y) == (-400 + (4 - ring) * 90) as real &&
              Max(s.cartesianMin.y, s.cartesianMax.y) == -15.0
  {
  }

  /** The four numbers of a zoomed viewBox: its corner and its size. */
  datatype ViewBox = ViewBox(minX: int, minY: int, width: int, height: int)

  /**
   * viewbox(quadrant): the viewport that shows one quadrant. The square from
   * the centre to the outermost ring's corner of that quadrant sits inside
   * it with a margin of 20 on every side. A quadrant outside 0..3 makes the
   * table lookup fail, which is None here.
   */
  function ViewBoxOf(quadrant: int): (r: Option<ViewBox>)
    ensures r.Some? <==> 0 <= quadrant < |Quadrants|
    ensures r.Some? ==> r.value.width == 440 && r.value.height == 440
    ensures r.Some? ==>
              var fx, fy := Quadrants[quadrant].factorX, Quadrants[quadrant].factorY;
              && r.value.minX + 20 == MinInt(0, 400 * fx)
              && r.value.minX + r.value.width - 20 == MaxInt(0, 400 * fx)
              && r.value.minY + 20 == MinInt(0, 400 * fy)
              && r.value.minY + r.value.height - 20 == MaxInt(0, 400 * fy)
  {
    if 0 <= quadrant < |Quadrants| then
      var q := Quadrants[quadrant];
      Some(ViewBox(MaxInt(0, q.factorX * 400) - 420, MaxInt(0, q.factorY * 400) - 420, 440, 440))
    else None
  }

  function MinInt(a: int, b: int): int { if a <= b then a else b }

  function MaxInt(a: int, b: int): int { if a <= b then b else a }
}
