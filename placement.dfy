/**
 * What the placement loop of radar.js computes for one entry: its quadrant,
 * its segment, its seeded initial point and its colour.
 */
module Placement {
  import opened Wrappers
  import opened Geometry
  import opened Segments

  /** The configuration fields the placement reads: config.rings[*].color, config.colors.inactive, config.print_layout. */
  datatype Config = Config(ringColors: seq<string>, inactiveColor: string, printLayout: bool)

  /**
   * One radar entry. labelText (entry.label), ring and active come from the configuration; the
   * placement loop writes quadrant, segment, x, y and color, the id pass writes id.
   */
  datatype Entry = Entry(labelText: string, ring: int, active: bool,
                         quadrant: int, segment: Segment, x: real, y: real, color: string, id: nat)

  /** Why the placement loop stops at an entry. */
  datatype PlaceError =
    | RingOutOfRange(index: nat)    // segment() finds no row for the ring
    | MissingRingColor(index: nat)  // config.rings has no row for the ring

  /** The seeded draw returns a value in [0, 1) for every seed. */
  ghost predicate DrawInUnit(draw: int -> real) {
    forall s :: 0.0 <= draw(s) < 1.0
  }

  /** The part d of a width w: the product in random_between and normal_between. */
  function Fraction(d: real, w: real): real {
    d * w
  }

  /** The value random_between(min, max) yields from one draw d. */
  function UniformAt(min: real, max: real, d: real): real {
    min + Fraction(d, max - min)
  }

  /** The value normal_between(min, max) yields from two draws d1 and d2. */
  function TriangularAt(min: real, max: real, d1: real, d2: real): real {
    min + Fraction((d1 + d2) * 0.5, max - min)
  }

  /** A draw in [0, 1) maps into [min, max). */
  lemma UniformAtBounds(min: real, max: real, d: real)
    requires min < max && 0.0 <= d < 1.0
    ensures min <= UniformAt(min, max, d) < max
  {
    FractionOfWidth(d, max - min);
  }

  /** The average of two draws in [0, 1) maps into [min, max). */
  lemma TriangularAtBounds(min: real, max: real, d1: real, d2: real)
    requires min < max && 0.0 <= d1 < 1.0 && 0.0 <= d2 < 1.0
    ensures min <= TriangularAt(min, max, d1, d2) < max
    ensures TriangularAt(min, max, d1, d2) == TriangularAt(min, max, d2, d1)
  {
    FractionOfWidth((d1 + d2) * 0.5, max - min);
    assert (d2 + d1) * 0.5 == (d1 + d2) * 0.5;
  }

  lemma PositiveProduct(a: real, b: real)
    requires a > 0.0 && b > 0.0
    ensures a * b > 0.0
  {
  }

  /** A fraction in [0, 1) of a positive width w lies in [0, w). */
  lemma FractionOfWidth(d: real, w: real)
    requires 0.0 <= d < 1.0 && w > 0.0
    ensures 0.0 <= Fraction(d, w) < w
  {
    var rest := (1.0 - d) * w;
    PositiveProduct(1.0 - d, w);
    if d > 0.0 {
      PositiveProduct(d, w);
    }
    assert d * w + rest == w;
  }

  /**
   * The polar point segment.random() draws when the seed counter stands at s:
   * the angle from seed s, the radius from the average of seeds s+1 and s+2.
   */
  function SampleAt(seg: Segment, draw: int -> real, s: int): Polar {
    Polar(UniformAt(seg.polarMin.t, seg.polarMax.t, draw(s)),
          TriangularAt(seg.polarMin.r, seg.polarMax.r, draw(s + 1), draw(s + 2)))
  }

  /** Every drawn point lies in its segment: angle in [t_min, t_max), radius in [r_min, r_max). */
  lemma SampleInSegment(quadrant: nat, ring: int, draw: int -> real, s: int)
    requires quadrant < |Quadrants| && ValidRing(ring) && DrawInUnit(draw)
    ensures var seg := SegmentOf(quadrant, ring).value;
            var p := SampleAt(seg, draw, s);
            seg.polarMin.t <= p.t < seg.polarMax.t && seg.polarMin.r <= p.r < seg.polarMax.r
  {
    var seg := SegmentOf(quadrant, ring).value;
    UniformAtBounds(seg.polarMin.t, seg.polarMax.t, draw(s));
    TriangularAtBounds(seg.polarMin.r, seg.polarMax.r, draw(s + 1), draw(s + 2));
  }

  /**
   * The colour expression of the placement loop: the ring's colour for an
   * active entry or in print layout, the inactive colour otherwise. None when
   * the ring colour is needed and config.rings has no row for the ring.
   */
  function ColorOf(cfg: Config, e: Entry): (c: Option<string>)
    ensures (e.active || cfg.printLayout) && 0 <= e.ring < |cfg.ringColors| ==> c == Some(cfg.ringColors[e.ring])
    ensures (e.active || cfg.printLayout) && !(0 <= e.ring < |cfg.ringColors|) ==> c == None
    ensures !(e.active || cfg.printLayout) ==> c == Some(cfg.inactiveColor)
  {
    if e.active || cfg.printLayout then
      if 0 <= e.ring < |cfg.ringColors| then Some(cfg.ringColors[e.ring]) else None
    else Some(cfg.inactiveColor)
  }

  /** An entry the placement loop gets through: a known ring, and a colour for it. */
  predicate Placeable(cfg: Config, e: Entry) {
    ValidRing(e.ring) && ColorOf(cfg, e).Some?
  }

  predicate AllPlaceable(cfg: Config, es: seq<Entry>) {
    forall i :: 0 <= i < |es| ==> Placeable(cfg, es[i])
  }

  /** Entry e, the i-th of the input, after the loop wrote its quadrant, segment and point. */
  function Positioned(e: Entry, i: nat, seg: Segment, point: Cartesian): Entry {
    e.(quadrant := i % 4, segment := seg, x := point.x, y := point.y)
  }

  /** Entry e, the i-th of the input, fully placed, with the seed counter at s when its turn comes. */
  function Placed(cfg: Config, draw: int -> real, toCartesian: Polar -> Cartesian, e: Entry, i: nat, s: int): Entry
    requires Placeable(cfg, e)
  {
    var seg := SegmentOf(i % 4, e.ring).value;
    Positioned(e, i, seg, toCartesian(SampleAt(seg, draw, s))).(color := ColorOf(cfg, e).value)
  }

  /** The whole placement loop, run from seed s: entry i draws seeds s+3i, s+3i+1 and s+3i+2. */
  function PlaceRun(cfg: Config, draw: int -> real, toCartesian: Polar -> Cartesian, es: seq<Entry>, s: int): seq<Entry>
    requires AllPlaceable(cfg, es)
  {
    seq(|es|, i requires 0 <= i < |es| => Placed(cfg, draw, toCartesian, es[i], i, s + 3 * i))
  }

  /**
   * What placement makes of entry i: quadrant i % 4, the segment of that
   * quadrant and its ring, a point drawn inside that segment from the three
   * seeds s, s+1, s+2, and the ring or inactive colour. Label, ring, active
   * flag and id are kept.
   */
  lemma PlacedEntry(cfg: Config, draw: int -> real, toCartesian: Polar -> Cartesian, e: Entry, i: nat, s: int)
    requires Placeable(cfg, e) && DrawInUnit(draw)
    ensures var p := Placed(cfg, draw, toCartesian, e, i, s);
            && 0 <= p.quadrant < 4 && p.quadrant == i % 4
            && p.labelText == e.labelText && p.ring == e.ring && p.active == e.active && p.id == e.id
            && Some(p.segment) == SegmentOf(i % 4, e.ring)
            && Cartesian(p.x, p.y) == toCartesian(SampleAt(p.segment, draw, s))
            && p.segment.polarMin.t <= SampleAt(p.segment, draw, s).t < p.segment.polarMax.t
            && p.segment.polarMin.r <= SampleAt(p.segment, draw, s).r < p.segment.polarMax.r
            && (e.active || cfg.printLayout ==> p.color == cfg.ringColors[e.ring])
            && (!(e.active || cfg.printLayout) ==> p.color == cfg.inactiveColor)
  {
    SampleInSegment(i % 4, e.ring, draw, s);
  }

  /** Placement writes only quadrant, segment, point and colour: labels, rings, flags and ids survive it. */
  lemma PlaceRunKeeps(cfg: Config, draw: int -> real, toCartesian: Polar -> Cartesian, es: seq<Entry>, s: int)
    requires AllPlaceable(cfg, es)
    ensures var p := PlaceRun(cfg, draw, toCartesian, es, s);
            |p| == |es| &&
            forall i :: 0 <= i < |es| ==>
              p[i].labelText == es[i].labelText && p[i].ring == es[i].ring && p[i].active == es[i].active && p[i].id == es[i].id
  {
  }

  /** Entry e, the i-th of the input, as the loop leaves it when it stops there with the seed counter at s. */
  function Stopped(cfg: Config, draw: int -> real, toCartesian: Polar -> Cartesian, e: Entry, i: nat, s: int): Entry {
    if !ValidRing(e.ring) then e.(quadrant := i % 4)
    else
      var seg := SegmentOf(i % 4, e.ring).value;
      Positioned(e, i, seg, toCartesian(SampleAt(seg, draw, s)))
  }

  /** Entry k is the first the loop cannot place. */
  predicate FirstUnplaceable(cfg: Config, es: seq<Entry>, k: nat) {
    k < |es| && AllPlaceable(cfg, es[..k]) && !Placeable(cfg, es[k])
  }

  /** The entries when the loop stops at entry k: those before it placed, it partly written, the rest untouched. */
  function StoppedRun(cfg: Config, draw: int -> real, toCartesian: Polar -> Cartesian, es: seq<Entry>, k: nat, s: int): seq<Entry>
    requires FirstUnplaceable(cfg, es, k)
  {
    PlaceRun(cfg, draw, toCartesian, es[..k], s) + [Stopped(cfg, draw, toCartesian, es[k], k, s + 3 * k)] + es[k + 1..]
  }

  /** The entries while the loop stands at entry i: those before it placed, the rest untouched. */
  function RunSoFar(cfg: Config, draw: int -> real, toCartesian: Polar -> Cartesian, es: seq<Entry>, i: nat, s: int): (r: seq<Entry>)
    requires i <= |es| && AllPlaceable(cfg, es[..i])
    ensures |r| == |es|
    ensures i < |es| ==> r[i] == es[i]
  {
    PlaceRun(cfg, draw, toCartesian, es[..i], s) + es[i..]
  }

  /** Once the loop has passed every entry, all of them are placed. */
  lemma RunSoFarDone(cfg: Config, draw: int -> real, toCartesian: Polar -> Cartesian, es: seq<Entry>, s: int)
    requires AllPlaceable(cfg, es[..|es|])
    ensures AllPlaceable(cfg, es)
    ensures RunSoFar(cfg, draw, toCartesian, es, |es|, s) == PlaceRun(cfg, draw, toCartesian, es, s)
  {
    assert es[..|es|] == es;
  }

  /** Placing entry i moves the loop on to entry i + 1. */
  lemma RunSoFarStep(cfg: Config, draw: int -> real, toCartesian: Polar -> Cartesian, es: seq<Entry>, i: nat, s: int)
    requires i < |es| && AllPlaceable(cfg, es[..i]) && Placeable(cfg, es[i])
    ensures AllPlaceable(cfg, es[..i + 1])
    ensures RunSoFar(cfg, draw, toCartesian, es, i, s)[i := Placed(cfg, draw, toCartesian, es[i], i, s + 3 * i)]
            == RunSoFar(cfg, draw, toCartesian, es, i + 1, s)
  {
    assert es[..i + 1][..i] == es[..i];
    assert forall k :: 0 <= k < i ==> es[..i + 1][k] == es[..i][k];
    var a := RunSoFar(cfg, draw, toCartesian, es, i, s)[i := Placed(cfg, draw, toCartesian, es[i], i, s + 3 * i)];
    var b := RunSoFar(cfg, draw, toCartesian, es, i + 1, s);
    forall k | 0 <= k < |es| ensures a[k] == b[k] {
      if k > i {
        assert a[k] == es[i..][k - i] && b[k] == es[i + 1..][k - i - 1];
      }
    }
  }

  /** Stopping at entry k leaves the entries as StoppedRun says. */
  lemma RunSoFarStopped(cfg: Config, draw: int -> real, toCartesian: Polar -> Cartesian, es: seq<Entry>, k: nat, s: int)
    requires k < |es| && AllPlaceable(cfg, es[..k]) && !Placeable(cfg, es[k])
    ensures FirstUnplaceable(cfg, es, k) && !AllPlaceable(cfg, es)
    ensures RunSoFar(cfg, draw, toCartesian, es, k, s)[k := Stopped(cfg, draw, toCartesian, es[k], k, s + 3 * k)]
            == StoppedRun(cfg, draw, toCartesian, es, k, s)
  {
    var a := RunSoFar(cfg, draw, toCartesian, es, k, s)[k := Stopped(cfg, draw, toCartesian, es[k], k, s + 3 * k)];
    var b := StoppedRun(cfg, draw, toCartesian, es, k, s);
    forall j | 0 <= j < |es| ensures a[j] == b[j] {
      if j > k {
        assert a[j] == es[k..][j - k] && b[j] == es[k + 1..][j - k - 1];
      }
    }
  }

  /** The run from seed 42 draws seeds 42+3i, 43+3i and 44+3i for entry i. */
  lemma PlaceRunSeeds(cfg: Config, draw: int -> real, toCartesian: Polar -> Cartesian, es: seq<Entry>, i: nat)
    requires AllPlaceable(cfg, es) && i < |es|
    ensures var p := PlaceRun(cfg, draw, toCartesian, es, 42);
            |p| == |es| &&
            Cartesian(p[i].x, p[i].y) ==
              toCartesian(Polar(UniformAt(p[i].segment.polarMin.t, p[i].segment.polarMax.t, draw(42 + 3 * i)),
                                TriangularAt(p[i].segment.polarMin.r, p[i].segment.polarMax.r, draw(43 + 3 * i), draw(44 + 3 * i))))
  {
  }
}
