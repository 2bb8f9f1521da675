/**
 * The state radar_visualization keeps while it lays a radar out: the seed
 * counter of its random generator, the entries it writes positions, colours
 * and ids into, and the segmented buckets. One Radar object stands for one
 * call of radar_visualization; its methods are the steps of that call.
 */
module Visualization {
  import opened Wrappers
  import opened Geometry
  import opened Segments
  import opened Placement
  import opened LabelSort
  import opened Buckets
  import opened Legend

  class Radar {
    const config: Config
    /** The value Math.sin(seed) * 10000 minus its floor, as a function of the seed. */
    const draw: int -> real
    /** cartesian(polar): the cosine and sine of the angle scaled by the radius. */
    const toCartesian: Polar -> Cartesian
    /** String.prototype.localeCompare. */
    const localeCompare: (string, string) -> int
    var seed: int
    /** config.entries; entry i of the JavaScript array is entries[i]. */
    var entries: seq<Entry>
    /** segmented[quadrant][ring]: the indices into entries of the bucket's entries. */
    var segmented: seq<seq<seq<nat>>>

    /** The start of radar_visualization: the seed counter starts at 42. */
    constructor (config: Config, entries: seq<Entry>, draw: int -> real,
                 toCartesian: Polar -> Cartesian, localeCompare: (string, string) -> int)
      ensures this.config == config && this.entries == entries
      ensures this.draw == draw && this.toCartesian == toCartesian && this.localeCompare == localeCompare
      ensures seed == 42 && segmented == []
    {
      this.config := config;
      this.entries := entries;
      this.draw := draw;
      this.toCartesian := toCartesian;
      this.localeCompare := localeCompare;
      seed := 42;
      segmented := [];
    }

    /** random(): the draw for the current seed, which then moves on by one. */
    method Random() returns (x: real)
      requires DrawInUnit(draw)
      modifies this`seed
      ensures x == draw(old(seed)) && 0.0 <= x < 1.0
      ensures seed == old(seed) + 1
    {
      x := draw(seed);
      seed := seed + 1;
    }

    /** random_between(min, max): one draw, spread over [min, max). */
    method RandomBetween(min: real, max: real) returns (v: real)
      requires DrawInUnit(draw)
      modifies this`seed
      ensures v == UniformAt(min, max, draw(old(seed)))
      ensures min < max ==> min <= v < max
      ensures seed == old(seed) + 1
    {
      var d := Random();
      v := min + d * (max - min);
      if min < max {
        UniformAtBounds(min, max, d);
      }
    }

    /** normal_between(min, max): the average of two draws, spread over [min, max). */
    method NormalBetween(min: real, max: real) returns (v: real)
      requires DrawInUnit(draw)
      modifies this`seed
      ensures v == TriangularAt(min, max, draw(old(seed)), draw(old(seed) + 1))
      ensures min < max ==> min <= v < max
      ensures seed == old(seed) + 2
    {
      var d1 := Random();
      var d2 := Random();
      v := min + (d1 + d2) * 0.5 * (max - min);
      if min < max {
        TriangularAtBounds(min, max, d1, d2);
      }
    }

    /** segment(...).random(): the angle from one draw, then the radius from two more. */
    method SegmentRandom(seg: Segment) returns (point: Cartesian)
      requires DrawInUnit(draw)
      modifies this`seed
      ensures point == toCartesian(SampleAt(seg, draw, old(seed)))
      ensures seed == old(seed) + 3
    {
      var t := RandomBetween(seg.polarMin.t, seg.polarMax.t);
      var r := NormalBetween(seg.polarMin.r, seg.polarMax.r);
      point := toCartesian(Polar(t, r));
    }

    /**
     * The placement loop. Entry i gets quadrant i % 4, the segment of that
     * quadrant and its ring, a point drawn from it, and its colour. The loop
     * stops at the first entry whose ring has no segment (after its quadrant
     * was written) or no colour row (after its point was written).
     */
    method PlaceEntries() returns (o: Outcome<PlaceError>)
      requires DrawInUnit(draw)
      modifies this`seed, this`entries
      ensures o.Pass? <==> AllPlaceable(config, old(entries))
      ensures o.Pass? ==> entries == PlaceRun(config, draw, toCartesian, old(entries), old(seed))
      ensures o.Pass? ==> seed == old(seed) + 3 * |old(entries)|
      ensures o.Fail? ==> FirstUnplaceable(config, old(entries), o.error.index)
      ensures o.Fail? ==> entries == StoppedRun(config, draw, toCartesian, old(entries), o.error.index, old(seed))
      ensures o.Fail? && o.error.RingOutOfRange? ==>
                !ValidRing(old(entries)[o.error.index].ring) && seed == old(seed) + 3 * o.error.index
      ensures o.Fail? && o.error.MissingRingColor? ==>
                ValidRing(old(entries)[o.error.index].ring) && seed == old(seed) + 3 * o.error.index + 3
    {
      ghost var input := entries;
      ghost var s := seed;
      var i := 0;
      assert input[..0] == [];
      while i < |entries|
        invariant 0 <= i <= |input| && |entries| == |input|
        invariant seed == s + 3 * i
        invariant AllPlaceable(config, input[..i])
        invariant entries == RunSoFar(config, draw, toCartesian, input, i, s)
      {
        ghost var before := entries;
        o := PlaceEntry(i);
        if o.Fail? {
          RunSoFarStopped(config, draw, toCartesian, input, i, s);
          assert entries == before[i := Stopped(config, draw, toCartesian, input[i], i, s + 3 * i)];
          return;
        }
        RunSoFarStep(config, draw, toCartesian, input, i, s);
        i := i + 1;
      }
      RunSoFarDone(config, draw, toCartesian, input, s);
      return Pass;
    }

    /** One turn of the placement loop, for entry i. */
    method PlaceEntry(i: nat) returns (o: Outcome<PlaceError>)
      requires DrawInUnit(draw) && i < |entries|
      modifies this`seed, this`entries
      ensures o.Pass? <==> Placeable(config, old(entries)[i])
      ensures o.Pass? ==> entries == old(entries)[i := Placed(config, draw, toCartesian, old(entries)[i], i, old(seed))]
      ensures o.Pass? ==> seed == old(seed) + 3
      ensures o.Fail? ==> entries == old(entries)[i := Stopped(config, draw, toCartesian, old(entries)[i], i, old(seed))]
      ensures o.Fail? ==> o.error.index == i && (o.error.RingOutOfRange? <==> !ValidRing(old(entries)[i].ring))
      ensures o.Fail? ==> seed == old(seed) + (if o.error.RingOutOfRange? then 0 else 3)
    {
      var e := entries[i].(quadrant := i % 4);
      var found := SegmentOf(e.quadrant, e.ring);
      if found.None? {
        entries := entries[i := e];
        return Fail(RingOutOfRange(i));
      }
      var point := SegmentRandom(found.value);
      e := e.(segment := found.value, x := point.x, y := point.y);
      var color := ColorOf(config, e);
      if color.None? {
        entries := entries[i := e];
        return Fail(MissingRingColor(i));
      }
      e := e.(color := color.value);
      entries := entries[i := e];
      return Pass;
    }

    /**
     * The partition loop: sixteen empty buckets, then every entry pushed, in
     * input order, onto segmented[2][entry.ring].
     */
    method Partition()
      requires AllRingsValid(entries)
      modifies this`segmented
      ensures segmented == Partitioned(entries)
    {
      segmented := [];
      var quadrant := 0;
      while quadrant < 4
        invariant 0 <= quadrant <= 4 && |segmented| == quadrant
        invariant forall q :: 0 <= q < quadrant ==> segmented[q] == [[], [], [], []]
      {
        var row: seq<seq<nat>> := [];
        var ring := 0;
        while ring < 4
          invariant 0 <= ring <= 4 && |row| == ring
          invariant forall r :: 0 <= r < ring ==> row[r] == []
        {
          row := row + [[]];
          ring := ring + 1;
        }
        segmented := segmented + [row];
        quadrant := quadrant + 1;
      }
      var i := 0;
      while i < |entries|
        invariant 0 <= i <= |entries|
        invariant segmented == PartitionUpTo(entries, i)
      {
        var ring := entries[i].ring;
        PartitionStep(entries, i);
        segmented := segmented[2 := segmented[2][ring := segmented[2][ring] + [i]]];
        i := i + 1;
      }
    }

    /**
     * The id pass: for quadrants 2, 3, 1, 0 and rings 0..3, sort the bucket
     * by label, then give its entries the next ids in bucket order.
     */
    method AssignIds()
      requires IndexesBelow(segmented, |entries|)
      modifies this`segmented, this`entries
      ensures IndexesBelow(segmented, |entries|) && |entries| == |old(entries)|
      ensures InRange(IdOrder(segmented), |old(entries)|)
      ensures segmented == SortAll(old(segmented), Labels(old(entries)), localeCompare)
      ensures entries == Stamp(old(entries), IdOrder(segmented), 1)
    {
      ghost var labels := Labels(entries);
      ghost var start := segmented;
      ghost var sorted := SortAll(start, labels, localeCompare);
      ProgressStart(start, sorted);
      var id := 1;
      var quadArray := QuadOrder;
      var idx := 0;
      while idx < |quadArray|
        invariant 0 <= idx <= 4 && |entries| == |labels| && Labels(entries) == labels
        invariant segmented == Progress(start, sorted, idx, 0)
        invariant InRange(Traversed(sorted, idx), |labels|)
        invariant entries == Stamp(old(entries), Traversed(sorted, idx), 1)
        invariant id == 1 + |Traversed(sorted, idx)|
      {
        ghost var reached := entries;
        ghost var before := id;
        id := VisitQuadrant(start, sorted, labels, idx, id);
        StampNextQuadrant(old(entries), sorted, idx, reached, before, entries, id);
        idx := idx + 1;
      }
      IdPassDone(old(entries), start, localeCompare, sorted, segmented, entries);
    }

    /** One turn of the id pass's quadrant loop: rings 0..3 of quadrant QuadOrder[idx]. */
    method VisitQuadrant(ghost start: seq<seq<seq<nat>>>, ghost sorted: seq<seq<seq<nat>>>, ghost labels: seq<string>,
                         idx: nat, id: nat) returns (next: nat)
      requires idx < 4 && IndexesBelow(start, |labels|) && Labels(entries) == labels
      requires sorted == SortAll(start, labels, localeCompare)
      requires segmented == Progress(start, sorted, idx, 0)
      modifies this`segmented, this`entries
      ensures segmented == Progress(start, sorted, idx + 1, 0)
      ensures Labels(entries) == labels
      ensures var row := sorted[QuadOrder[idx]];
              InRange(Concat(row, 4), |labels|) &&
              entries == Stamp(old(entries), Concat(row, 4), id) && next == id + |Concat(row, 4)|
    {
      ghost var row := sorted[QuadOrder[idx]];
      next := id;
      var ring := 0;
      while ring < 4
        invariant 0 <= ring <= 4 && Labels(entries) == labels
        invariant segmented == Progress(start, sorted, idx, ring)
        invariant InRange(Concat(row, ring), |labels|)
        invariant entries == Stamp(old(entries), Concat(row, ring), id)
        invariant next == id + |Concat(row, ring)|
      {
        ghost var reached := entries;
        ghost var before := next;
        next := VisitBucket(start, sorted, labels, idx, ring, next);
        StampNextBucket(old(entries), row, ring, id, reached, row[ring], before, entries);
        ring := ring + 1;
      }
      ProgressNextQuadrant(start, sorted, idx);
    }

    /** One turn of the id pass's ring loop: sort bucket (QuadOrder[idx], ring), then number its entries. */
    method VisitBucket(ghost start: seq<seq<seq<nat>>>, ghost sorted: seq<seq<seq<nat>>>, ghost labels: seq<string>,
                       idx: nat, ring: nat, id: nat) returns (next: nat)
      requires idx < 4 && ring < 4 && IndexesBelow(start, |labels|) && Labels(entries) == labels
      requires sorted == SortAll(start, labels, localeCompare)
      requires segmented == Progress(start, sorted, idx, ring)
      modifies this`segmented, this`entries
      ensures segmented == Progress(start, sorted, idx, ring + 1)
      ensures Labels(entries) == labels
      ensures entries == Stamp(old(entries), sorted[QuadOrder[idx]][ring], id)
      ensures next == id + |sorted[QuadOrder[idx]][ring]|
    {
      var quadrant := QuadOrder[idx];
      ProgressStep(start, sorted, idx, ring);
      ProgressInRange(start, sorted, idx, ring, |labels|);
      SortBucket(quadrant, ring);
      var bucket := segmented[quadrant][ring];
      next := StampBucket(bucket, id);
      StampKeeps(old(entries), bucket, id);
    }

    /** entries.sort(...) on one bucket, by the labels of the entries it holds. */
    method SortBucket(quadrant: nat, ring: nat)
      requires quadrant < 4 && ring < 4 && IndexesBelow(segmented, |entries|)
      modifies this`segmented
      ensures segmented == old(segmented)[quadrant := old(segmented)[quadrant][ring :=
                SortByLabel(old(segmented)[quadrant][ring], Labels(entries), localeCompare)]]
    {
      var bucket := SortByLabel(segmented[quadrant][ring], Labels(entries), localeCompare);
      segmented := segmented[quadrant := segmented[quadrant][ring := bucket]];
    }

    /** The innermost loop of the id pass: the entries of one bucket get ids id, id + 1, ... in bucket order. */
    method StampBucket(bucket: seq<nat>, id: nat) returns (next: nat)
      requires InRange(bucket, |entries|)
      modifies this`entries
      ensures entries == Stamp(old(entries), bucket, id)
      ensures next == id + |bucket|
    {
      next := id;
      var i := 0;
      while i < |bucket|
        invariant 0 <= i <= |bucket| && |entries| == |old(entries)|
        invariant entries == Stamp(old(entries), bucket[..i], id)
        invariant next == id + i
      {
        assert bucket[..i + 1][..i] == bucket[..i];
        entries := entries[bucket[i] := entries[bucket[i]].(id := next)];
        next := next + 1;
        i := i + 1;
      }
      assert bucket[..i] == bucket;
    }

    /**
     * Placement, partition and id pass in turn. When every entry can be
     * placed, the entries end up placed from the current seed and numbered
     * by the id pass over the buckets of the placed entries.
     */
    method Layout() returns (o: Outcome<PlaceError>)
      requires DrawInUnit(draw)
      modifies this`seed, this`entries, this`segmented
      ensures o.Pass? <==> AllPlaceable(config, old(entries))
      ensures o.Pass? ==>
                var placed := PlaceRun(config, draw, toCartesian, old(entries), old(seed));
                && IndexesBelow(Partitioned(placed), |placed|)
                && segmented == SortAll(Partitioned(placed), Labels(placed), localeCompare)
                && entries == Identified(placed, localeCompare)
      ensures o.Pass? ==> seed == old(seed) + 3 * |old(entries)|
      ensures o.Fail? ==>
                && FirstUnplaceable(config, old(entries), o.error.index)
                && entries == StoppedRun(config, draw, toCartesian, old(entries), o.error.index, old(seed))
                && segmented == old(segmented)
      ensures o.Fail? && o.error.RingOutOfRange? ==>
                !ValidRing(old(entries)[o.error.index].ring) && seed == old(seed) + 3 * o.error.index
      ensures o.Fail? && o.error.MissingRingColor? ==>
                ValidRing(old(entries)[o.error.index].ring) && seed == old(seed) + 3 * o.error.index + 3
    {
      o := PlaceEntries();
      if o.Fail? {
        return;
      }
      PlaceRunKeeps(config, draw, toCartesian, old(entries), old(seed));
      ghost var placed := entries;
      Partition();
      PartitionedBuckets(placed);
      AssignIds();
    }

    /**
     * legend_transform(quadrant, ring, index): the position of a legend
     * header (index None) or item, read off the bucket sizes.
     */
    method LegendTransform(quadrant: nat, ring: nat, index: Option<real>) returns (p: Cartesian)
      requires quadrant < 4 && ring < 4 && Shaped(segmented)
      ensures p == LegendPoint(segmented, quadrant, ring, index)
    {
      var dx := if ring < 2 then 0.0 else 120.0;
      var dy := if index.None? then -16.0 else index.value * 12.0;
      if ring % 2 == 1 {
        dy := dy + 36.0 + (|segmented[quadrant][ring - 1]| as real) * 12.0;
      }
      if quadrant == 2 {
        dx := 0.0;
        if ring > 0 {
          var paddingLength := 0;
          var idx := 0;
          while idx < ring
            invariant 0 <= idx <= ring && paddingLength == SizeSum(segmented[quadrant], idx)
          {
            paddingLength := paddingLength + |segmented[quadrant][idx]|;
            idx := idx + 1;
          }
          dy := if index.None? then -16.0 else index.value * 12.0;
          dy := dy - 16.0 + (paddingLength as real) * 12.0 + ((ring - 1) as real) * 40.0;
        } else {
          dy := dy - 52.0;
        }
      }
      p := Cartesian(LegendOffset[quadrant].x + dx, LegendOffset[quadrant].y + dy * 1.1);
    }
  }
}
