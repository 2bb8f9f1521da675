# Tech radar layout, modelled in Dafny

This project models the layout bookkeeping of `radar_visualization` in
`radar.js`, the function that draws a technology radar. The model covers
everything it computes before and around the drawing:

- the order-insensitive clamps `bounded_interval`, `bounded_ring` and `bounded_box`;
- the bounds of a segment (quadrant × ring), taken from the `quadrants` and `rings` tables;
- the seeded generator: `random`, `random_between` and `normal_between` over the shared `seed` counter, which starts at 42;
- the placement loop, which gives entry *i* quadrant `i % 4`, a segment, a point drawn inside that segment and a colour;
- the partition of every entry into `segmented[2][ring]`;
- the id pass: quadrants 2, 3, 1, 0 and rings 0..3 in turn; each bucket is sorted by label, then stamped with `id++`;
- `legend_transform` and the zoom `viewbox`.

Modules:

- `Wrappers`: `Option` and `Outcome`.
- `Geometry`: points and the clamps.
- `Segments`: the tables, `segment` and `viewbox`.
- `Placement`: what the placement loop makes of one entry and of all of them.
- `LabelSort`: the stable sort by label.
- `Buckets`: the partition, the id pass as functions, and the id lemmas.
- `Legend`: legend positions.
- `Visualization`: class `Radar`. It holds the state `radar_visualization` mutates (`seed`, `entries`, `segmented`). Its methods are the loops, each proved against the functions above.

The model takes these as parameters (constant fields of `Radar`) rather than modelling them:

- The fractional part of `Math.sin(seed) * 10000` is a function `draw` of the seed. It is assumed only to return a value in [0, 1).
- `cartesian(polar)` is a function `toCartesian`.
- `localeCompare` is a function `localeCompare`. The ordering lemmas assume only that it is a total preorder: `cmp(a, b) <= 0` is total and transitive.

How the model represents the source's state and behaviour:

- Buckets hold the positions of entries in `config.entries`. These stand for the object references the JavaScript arrays share.
- JavaScript's `Array.prototype.sort` is stable. It is modelled as an insertion sort that puts each element after its equals. `SortedUnique` shows this result is the one ordering that is sorted by label with ties kept in input order, so it fixes what any stable sort yields.
- A ring outside 0..3 makes `segment` throw (`rings[ring]` is undefined). An active or print-layout entry whose ring has no `config.rings` row makes the colour expression throw. The model returns these as `Fail(RingOutOfRange(i))` and `Fail(MissingRingColor(i))`, with the entries in the state the loop leaves them.

The segment box:

- The box's far corner is `(400·factor_x, 400·factor_y + (4 − ring)·90)` (`radar.js:123-125`). The commented-out line `radar.js:124` keeps the symmetric box this replaced.
- `SegmentBoxVerticalExtent` shows a consequence. In the upper quadrants (factor_y = −1), the headroom shrinks the box: for ring 0 it spans y from −40 to −15 only.

The legend lemmas show a spacing limit. Items step 13.2 apart, while a header advances 12 per item listed above it. So in quadrant 2 the last item of ring 0 stays above ring 1's header only when ring 0 has at most 27 entries. For rings 1 and 2 the limit is 30.

## Model

| member | source | states |
|---|---|---|
| Geometry.BoundedInterval | radar.js:89-93 | the result lies between the two bounds in either order; a value already inside is returned unchanged; a value below or above is sent to the nearer bound |
| Geometry.BoundedIntervalSymmetric | radar.js:89-93 | swapping the two bounds gives the same result |
| Geometry.BoundedIntervalIdempotent | radar.js:89-93 | clamping twice is clamping once |
| Geometry.BoundedIntervalMonotone | radar.js:89-93 | the clamp preserves order: v <= w gives clamp(v) <= clamp(w) |
| Geometry.BoundedIntervalNearest | radar.js:89-93 | the clamped value is the point of the interval nearest to the input |
| Geometry.BoundedRing | radar.js:95-100 | the angle is never changed, the radius ends up between the bounds, a point already inside is unchanged, a radius below or above the range goes to the nearer bound |
| Geometry.BoundedRingIdempotent | radar.js:95-100 | clamping a polar point twice is clamping it once |
| Geometry.BoundedBox | radar.js:102-107 | the result lies in the box; a point inside is unchanged; each axis inside its range is kept, and an axis below or above its range goes to the nearer bound |
| Geometry.BoundedBoxAxesIndependent | radar.js:102-107 | each axis of the result depends only on that axis of the input |
| Geometry.BoundedBoxIdempotent | radar.js:102-107 | clamping into the box twice is clamping once |
| Segments.SegmentOf | radar.js:109-126 | a segment exists exactly for rings 0..3; its inner radius is below its outer radius with a non-empty clearance band of 15 on each side, the outer radius is the ring's radius, the angle range is non-empty, the box's first corner is 15·factor |
| Segments.RingsAdjacent | radar.js:110-117 | ring 0 starts at radius 30 and every ring starts where the previous one ends |
| Segments.QuadrantsTileCircle | radar.js:43-48 | the four quadrants' angle ranges run from −π to π, each starting where the previous one (in the order 2, 3, 0, 1) ends |
| Segments.SegmentBoxVerticalExtent | radar.js:122-126 | the box's far corner is (400·factor_x, 400·factor_y + (4 − ring)·90), and so its vertical range is [15, 400 + (4 − ring)·90] below the axis and [−400 + (4 − ring)·90, −15] above it |
| Segments.ViewBoxOf | radar.js:201-208 | a viewBox exists exactly for quadrants 0..3; it is 440 × 440 and covers the quadrant's square from 0 to 400·factor on each axis with a 20 margin |
| Placement.UniformAtBounds | radar.js:34-36 | random_between maps a draw in [0, 1) into [min, max) |
| Placement.TriangularAtBounds | radar.js:38-40 | normal_between maps two draws in [0, 1) into [min, max), and the order of the two draws does not matter |
| Placement.SampleInSegment | radar.js:140-145 | the polar point segment.random() draws lies in its segment: angle in [t_min, t_max), radius in [r_min, r_max) |
| Placement.ColorOf | radar.js:160-165 | an active or print-layout entry is given its ring's colour, or fails when the ring has no colour row; any other entry is given the inactive colour |
| Placement.PlacedEntry | radar.js:150-166 | a placed entry has quadrant i % 4 in 0..3, the segment of that quadrant and its ring, a point drawn inside that segment from three consecutive seeds, and the colour the configuration gives it; label, ring, active flag and id are kept |
| Placement.PlaceRunSeeds | radar.js:150-157 | starting from seed 42, entry i's point is drawn from seeds 42+3i (angle), 43+3i and 44+3i (radius) |
| Placement.PlaceRunKeeps | radar.js:150-166 | placement keeps the number of entries and every entry's label, ring, active flag and id |
| LabelSort.Insert | radar.js:190 | inserting adds exactly the element to the bucket's multiset |
| LabelSort.SortByLabel | radar.js:190 | sorting permutes the bucket: same multiset, same length |
| LabelSort.SortByLabelSorted | radar.js:190 | a bucket held in input order comes out ordered by label, with labels that compare equal kept in input order |
| LabelSort.SortedUnique | radar.js:190 | two orderings of the same bucket that are both sorted this way are equal, so the result is what any stable sort returns |
| Buckets.RingBucketSound | radar.js:176-181 | a ring's bucket holds only entries of that ring, in increasing input order |
| Buckets.RingBucketComplete | radar.js:176-181 | every entry of the ring is in its bucket |
| Buckets.PartitionedBuckets | radar.js:168-181 | after the partition, the buckets of quadrants 0, 1 and 3 are empty; entry i is in bucket segmented[2][r] exactly when its ring is r; each bucket is in input order |
| Buckets.PartitionMultiset | radar.js:176-181 | the four buckets of quadrant 2 together hold every entry exactly once |
| Buckets.PartitionSizes | radar.js:176-181 | the bucket sizes add up to the number of entries |
| Buckets.SortAll | radar.js:188-190 | every bucket is replaced by its sorted version, a permutation of its previous contents |
| Buckets.StampKeeps | radar.js:191-193 | numbering changes nothing but ids, and no labels |
| Buckets.StampConcat | radar.js:191-193 | numbering one run after another, with the counter carried over, is numbering their concatenation |
| Buckets.StampIds | radar.js:191-193 | along an order without repeats, the k-th entry gets id start + k |
| Buckets.IdOrderOfPartition | radar.js:184-195 | after the partition, the id pass numbers quadrant 2's buckets of rings 0, 1, 2, 3 in turn, and nothing else |
| Buckets.IdOrderIsPermutation | radar.js:184-195 | the id pass visits every entry exactly once |
| Buckets.IdsArePermutation | radar.js:184-195 | the ids are 1..n, each used once; the k-th entry visited gets id k + 1; nothing else about the entries changes |
| Buckets.IdOfEntry | radar.js:184-195 | entry i sits at some position p of its ring's sorted bucket and gets id (entries in lower rings) + p + 1 |
| Buckets.IdsFollowRings | radar.js:184-195 | every entry of a lower ring has a smaller id than every entry of a higher ring |
| Buckets.IdsFollowLabels | radar.js:188-193 | within a ring, a label that sorts strictly earlier gets the smaller id, and of labels that compare equal the earlier input entry does |
| Legend.SizeSumConcat | radar.js:377-380 | the padding summed over the first k buckets is the number of entries numbered before bucket k |
| Legend.HeadersDescend | radar.js:362-400 | in quadrant 2 each ring's header is in the same column as, and below, the previous ring's header |
| Legend.ItemsDescend | radar.js:362-400 | a ring's items lie below its header, each below the previous one, in the header's column |
| Legend.LastItemAboveNextHeader | radar.js:376-398 | in quadrant 2 the last item of ring r comes before the header of ring r + 1 exactly when ring r has at most 27 entries (ring 0) or 30 (rings 1, 2) |
| Legend.LegendListsIdsInOrder | radar.js:509-516 | after the id pass, item p of ring r's list in quadrant 2 is the entry with id (entries in rings before r) + p + 1, so the legend numbers run consecutively |
| Visualization.Radar.constructor | radar.js:28 | the seed counter starts at 42 |
| Visualization.Radar.Random | radar.js:29-32 | returns the draw for the current seed, in [0, 1), and advances the seed by one |
| Visualization.Radar.RandomBetween | radar.js:34-36 | returns min + d·(max − min) for the next draw d, in [min, max) when min < max, and advances the seed by one |
| Visualization.Radar.NormalBetween | radar.js:38-40 | returns min + (d1 + d2)·0.5·(max − min) for the next two draws, in [min, max) when min < max, and advances the seed by two |
| Visualization.Radar.SegmentRandom | radar.js:140-145 | returns the point drawn from the segment at the current seed and advances the seed by three |
| Visualization.Radar.PlaceEntry | radar.js:151-165 | one turn of the placement loop: the entry is placed and the seed advances by three, or it stops with the quadrant written (ring out of range, seed unchanged) or the point written (no colour row, seed advanced by three) |
| Visualization.Radar.PlaceEntries | radar.js:150-166 | succeeds exactly when every entry can be placed, and then every entry is placed from its own three seeds; otherwise it stops at the first entry that cannot be placed, with the entries before it placed and those after it untouched |
| Visualization.Radar.Partition | radar.js:168-181 | builds sixteen empty buckets, then pushes every entry in input order onto segmented[2][its ring] |
| Visualization.Radar.SortBucket | radar.js:189-190 | replaces one bucket by its sorted version |
| Visualization.Radar.StampBucket | radar.js:191-193 | gives the bucket's entries the ids id, id + 1, ... in bucket order, and returns the next counter value |
| Visualization.Radar.VisitBucket | radar.js:189-193 | sorts one bucket of the id pass, then numbers it |
| Visualization.Radar.VisitQuadrant | radar.js:187-194 | sorts and numbers the four buckets of one quadrant in ring order |
| Visualization.Radar.AssignIds | radar.js:184-195 | leaves every bucket sorted, and entries numbered 1, 2, ... along quadrants 2, 3, 1, 0 and rings 0..3 of the sorted buckets |
| Visualization.Radar.Layout | radar.js:150-195 | placement, partition and id pass together: when every entry can be placed, the entries end up placed from the starting seed and numbered as the id lemmas describe, and the seed has advanced by three per entry; otherwise it stops at the first entry that cannot be placed, leaving the entries as the placement loop left them, the buckets untouched, the error saying whether the entry's ring was out of range (no draw, seed advanced by three per entry placed) or its colour row was missing (point drawn, three more) |
| Visualization.Radar.LegendTransform | radar.js:362-400 | the legend position computed step by step, padding loop included, equals the closed form LegendPoint the legend lemmas are about |

## Left out

- All d3, SVG and DOM work: drawing rings, texts, blips, tooltips and handlers. It is plumbing over a library this model does not have.
- `d3.forceSimulation` with `forceCollide`, and the `clipx`/`clipy` callbacks it drives. These are floating-point physics run by an external scheduler. Their box clamp is `Geometry.BoundedBox` and their radius clamp is `Geometry.BoundedRing`; the `polar`/`cartesian` conversion between the two is not modelled.
- `polar` and `cartesian` themselves: `atan2`, `sqrt`, `cos` and `sin` are not modelled. `cartesian` is the parameter `toCartesian`.
- The body of `random`: the `Math.sin` floating-point draw is the parameter `draw`, assumed only to lie in [0, 1).
- Floating point in general: coordinates are exact reals, so rounding in the draws and in `dy*1.1` is not modelled.
- `translate` and `viewbox`'s string formatting. `LegendTransform` returns the point, and `ViewBoxOf` returns the four numbers.
- The sorting rules of `localeCompare`. It is the parameter `localeCompare`, and the ordering lemmas assume only that it is a total preorder.
- Visualization.Radar.SortBucket: the sort is a function on the bucket, not an in-place array algorithm, so the in-place steps of the engine's sort are not modelled.
- Ids are numbers. The source stores the decimal string `"" + id`.
- Rings are integers. A ring given as a string, such as "1" from a CSV, is not modelled.
- Entries are identified by their position in `config.entries`, so the model cannot express one entry object listed there twice; in the source such an entry would be placed twice and numbered twice, keeping the last values.
- Entry fields the layout does not compute (`link`, `moved`) are not modelled.
- Visualization.Radar.Partition: requires every ring to be in 0..3. In the source the placement loop has already thrown for any other ring, and `Layout` only partitions after a successful placement.
