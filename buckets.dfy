/**
 * The partition of the entries into segmented[quadrant][ring] and the id
 * pass over those buckets. A bucket holds entry indices: the positions in
 * config.entries of the entry objects the JavaScript array holds.
 */
module Buckets {
  import opened Segments
  import opened Placement
  import opened LabelSort

  /** The order in which the id pass visits the quadrants. */
  const QuadOrder: seq<nat> := [2, 3, 1, 0]

  /** The bucket rows of the id pass and the legend all have four quadrants of four rings. */
  predicate Shaped(seg: seq<seq<seq<nat>>>) {
    |seg| == 4 && forall q :: 0 <= q < 4 ==> |seg[q]| == 4
  }

  /** Every bucket holds indices of entries among the first n. */
  predicate IndexesBelow(seg: seq<seq<seq<nat>>>, n: nat) {
    Shaped(seg) && forall q, r :: 0 <= q < 4 && 0 <= r < 4 ==> InRange(seg[q][r], n)
  }

  predicate AllRingsValid(es: seq<Entry>) {
    forall i :: 0 <= i < |es| ==> ValidRing(es[i].ring)
  }

  function Range(n: nat): (s: seq<nat>)
    ensures |s| == n && forall k :: 0 <= k < n ==> s[k] == k
  {
    seq(n, k => k)
  }

  function Labels(es: seq<Entry>): (ls: seq<string>)
    ensures |ls| == |es| && forall i :: 0 <= i < |es| ==> ls[i] == es[i].labelText
  {
    seq(|es|, i requires 0 <= i < |es| => es[i].labelText)
  }

  /** The indices of the first n entries whose ring is ring, in input order. */
  function RingBucket(es: seq<Entry>, ring: int, n: nat): seq<nat>
    requires n <= |es|
  {
    if n == 0 then [] else RingBucket(es, ring, n - 1) + (if es[n - 1].ring == ring then [n - 1] else [])
  }

  /** The bucket holds only entries of the ring, among the first n, in increasing input order. */
  lemma {:induction false} RingBucketSound(es: seq<Entry>, ring: int, n: nat)
    requires n <= |es|
    ensures var b := RingBucket(es, ring, n);
            InRange(b, n) && Increasing(b) && forall k :: 0 <= k < |b| ==> es[b[k]].ring == ring
  {
    if n > 0 {
      RingBucketSound(es, ring, n - 1);
    }
  }

  /** Every entry of the ring among the first n is in the bucket. */
  lemma {:induction false} RingBucketComplete(es: seq<Entry>, ring: int, n: nat, i: nat)
    requires n <= |es| && i < n && es[i].ring == ring
    ensures i in RingBucket(es, ring, n)
  {
    if i < n - 1 {
      RingBucketComplete(es, ring, n - 1, i);
    }
  }

  /** segmented after the partition loop has pushed the first n entries: every entry goes to quadrant 2. */
  function PartitionUpTo(es: seq<Entry>, n: nat): seq<seq<seq<nat>>>
    requires n <= |es|
  {
    var empty: seq<seq<nat>> := [[], [], [], []];
    [empty, empty, [RingBucket(es, 0, n), RingBucket(es, 1, n), RingBucket(es, 2, n), RingBucket(es, 3, n)], empty]
  }

  /** Pushing entry n onto segmented[2][its ring] extends the partition by one entry. */
  lemma PartitionStep(es: seq<Entry>, n: nat)
    requires n < |es| && ValidRing(es[n].ring)
    ensures var p := PartitionUpTo(es, n);
            var r := es[n].ring;
            PartitionUpTo(es, n + 1) == p[2 := p[2][r := p[2][r] + [n]]]
  {
    var p := PartitionUpTo(es, n);
    var r := es[n].ring;
    var row := p[2][r := p[2][r] + [n]];
    var next := PartitionUpTo(es, n + 1)[2];
    assert RingBucket(es, 0, n + 1) == RingBucket(es, 0, n) + (if r == 0 then [n] else []);
    assert RingBucket(es, 1, n + 1) == RingBucket(es, 1, n) + (if r == 1 then [n] else []);
    assert RingBucket(es, 2, n + 1) == RingBucket(es, 2, n) + (if r == 2 then [n] else []);
    assert RingBucket(es, 3, n + 1) == RingBucket(es, 3, n) + (if r == 3 then [n] else []);
    assert forall b :: 0 <= b < 4 ==> next[b] == row[b];
    assert next == row;
    var whole := PartitionUpTo(es, n + 1);
    assert forall q :: 0 <= q < 4 ==> whole[q] == p[2 := row][q];
  }

  function Partitioned(es: seq<Entry>): seq<seq<seq<nat>>> {
    PartitionUpTo(es, |es|)
  }

  /**
   * The partition: the buckets of quadrants 0, 1 and 3 stay empty, and
   * segmented[2][r] holds exactly the entries of ring r, in input order.
   */
  lemma PartitionedBuckets(es: seq<Entry>)
    ensures IndexesBelow(Partitioned(es), |es|)
    ensures forall q, r :: 0 <= q < 4 && q != 2 && 0 <= r < 4 ==> Partitioned(es)[q][r] == []
    ensures forall r, i :: 0 <= r < 4 && 0 <= i < |es| ==> (i in Partitioned(es)[2][r] <==> es[i].ring == r)
    ensures forall r :: 0 <= r < 4 ==> Increasing(Partitioned(es)[2][r])
  {
    forall r | 0 <= r < 4
      ensures Partitioned(es)[2][r] == RingBucket(es, r, |es|)
      ensures InRange(Partitioned(es)[2][r], |es|) && Increasing(Partitioned(es)[2][r])
      ensures forall i :: 0 <= i < |es| ==> (i in Partitioned(es)[2][r] <==> es[i].ring == r)
    {
      RingBucketSound(es, r, |es|);
      var b := RingBucket(es, r, |es|);
      forall i | 0 <= i < |es| ensures i in b <==> es[i].ring == r {
        if es[i].ring == r {
          RingBucketComplete(es, r, |es|, i);
        }
        if i in b {
          var k :| 0 <= k < |b| && b[k] == i;
        }
      }
    }
  }

  function All4(bs: seq<seq<nat>>): seq<nat>
    requires |bs| == 4
  {
    bs[0] + bs[1] + bs[2] + bs[3]
  }

  /** The four ring buckets of the first n entries hold each of those entries exactly once. */
  lemma {:induction false} PartitionMultiset(es: seq<Entry>, n: nat)
    requires n <= |es| && AllRingsValid(es)
    ensures multiset(All4(PartitionUpTo(es, n)[2])) == multiset(Range(n))
  {
    if n > 0 {
      var last: nat := n - 1;
      PartitionMultiset(es, last);
      RangeGrows(last);
      var ring := es[last].ring;
      assert 0 <= ring < 4;
      BucketsGrow(PartitionUpTo(es, last)[2], PartitionUpTo(es, n)[2], ring, last);
    }
  }

  lemma RangeGrows(n: nat)
    ensures multiset(Range(n + 1)) == multiset(Range(n)) + multiset{n}
  {
    assert Range(n + 1) == Range(n) + [n];
  }

  lemma MultisetAll4(bs: seq<seq<nat>>)
    requires |bs| == 4
    ensures multiset(All4(bs)) == multiset(bs[0]) + multiset(bs[1]) + multiset(bs[2]) + multiset(bs[3])
  {
    assert All4(bs) == bs[0] + bs[1] + bs[2] + bs[3];
  }

  lemma UnionGrows(p0: multiset<nat>, p1: multiset<nat>, p2: multiset<nat>, p3: multiset<nat>, m: multiset<nat>)
    ensures (p0 + m) + p1 + p2 + p3 == p0 + p1 + p2 + p3 + m
    ensures p0 + (p1 + m) + p2 + p3 == p0 + p1 + p2 + p3 + m
    ensures p0 + p1 + (p2 + m) + p3 == p0 + p1 + p2 + p3 + m
    ensures p0 + p1 + p2 + (p3 + m) == p0 + p1 + p2 + p3 + m
  {
  }

  /** Appending x to one of four buckets adds x once to the multiset of their concatenation. */
  lemma BucketsGrow(prev: seq<seq<nat>>, cur: seq<seq<nat>>, ring: nat, x: nat)
    requires |prev| == 4 && |cur| == 4 && ring < 4
    requires cur[ring] == prev[ring] + [x]
    requires forall r :: 0 <= r < 4 && r != ring ==> cur[r] == prev[r]
    ensures multiset(All4(cur)) == multiset(All4(prev)) + multiset{x}
  {
    MultisetAll4(prev);
    MultisetAll4(cur);
    var p0, p1, p2, p3 := multiset(prev[0]), multiset(prev[1]), multiset(prev[2]), multiset(prev[3]);
    assert multiset(cur[ring]) == multiset(prev[ring]) + multiset{x};
    UnionGrows(p0, p1, p2, p3, multiset{x});
    if ring == 0 {
      assert multiset(All4(cur)) == (p0 + multiset{x}) + p1 + p2 + p3;
    } else if ring == 1 {
      assert multiset(All4(cur)) == p0 + (p1 + multiset{x}) + p2 + p3;
    } else if ring == 2 {
      assert multiset(All4(cur)) == p0 + p1 + (p2 + multiset{x}) + p3;
    } else {
      assert multiset(All4(cur)) == p0 + p1 + p2 + (p3 + multiset{x});
    }
  }

  /** The sizes of the four ring buckets add up to the number of entries. */
  lemma PartitionSizes(es: seq<Entry>)
    requires AllRingsValid(es)
    ensures var b := Partitioned(es)[2];
            |b[0]| + |b[1]| + |b[2]| + |b[3]| == |es|
  {
    PartitionMultiset(es, |es|);
    assert |multiset(All4(Partitioned(es)[2]))| == |All4(Partitioned(es)[2])|;
    assert |multiset(Range(|es|))| == |es|;
  }

  /** The concatenation of the first k buckets of a row. */
  function Concat(bs: seq<seq<nat>>, k: nat): seq<nat>
    requires k <= |bs|
  {
    if k == 0 then [] else Concat(bs, k - 1) + bs[k - 1]
  }

  lemma ConcatAll4(row: seq<seq<nat>>)
    requires |row| == 4
    ensures Concat(row, 4) == All4(row)
  {
    assert Concat(row, 1) == row[0];
    assert Concat(row, 2) == row[0] + row[1];
    assert Concat(row, 3) == row[0] + row[1] + row[2];
  }

  /** The entries the id pass visits in its first idx quadrants, in visiting order. */
  function Traversed(seg: seq<seq<seq<nat>>>, idx: nat): seq<nat>
    requires Shaped(seg) && idx <= 4
  {
    if idx == 0 then [] else Traversed(seg, idx - 1) + Concat(seg[QuadOrder[idx - 1]], 4)
  }

  /** The order in which the id pass numbers the entries. */
  function IdOrder(seg: seq<seq<seq<nat>>>): seq<nat>
    requires Shaped(seg)
  {
    Traversed(seg, 4)
  }

  /** Every bucket sorted by label. */
  function SortAll(seg: seq<seq<seq<nat>>>, labels: seq<string>, cmp: (string, string) -> int): (r: seq<seq<seq<nat>>>)
    requires IndexesBelow(seg, |labels|)
    ensures IndexesBelow(r, |labels|)
    ensures forall q, b :: 0 <= q < 4 && 0 <= b < 4 ==> r[q][b] == SortByLabel(seg[q][b], labels, cmp)
    ensures forall q, b :: 0 <= q < 4 && 0 <= b < 4 ==> multiset(r[q][b]) == multiset(seg[q][b])
  {
    seq(4, q requires 0 <= q < 4 => seq(4, b requires 0 <= b < 4 => SortByLabel(seg[q][b], labels, cmp)))
  }

  /** Bucket (q, r) comes before position (idx, ring) of the id pass. */
  predicate Visited(q: nat, r: nat, idx: nat, ring: nat) {
    QuadPos(q) < idx || (QuadPos(q) == idx && r < ring)
  }

  /** The step of the id pass at which quadrant q comes up. */
  function QuadPos(q: nat): (k: nat)
    ensures q < 4 ==> k < 4 && QuadOrder[k] == q
  {
    if q == 2 then 0 else if q == 3 then 1 else if q == 1 then 2 else 3
  }

  lemma QuadPosOfOrder(idx: nat)
    requires idx < 4
    ensures QuadPos(QuadOrder[idx]) == idx
  {
  }

  /**
   * segmented while the id pass stands at quadrant QuadOrder[idx], ring ring:
   * the buckets visited so far hold their sorted versions from sorted, the
   * others their contents from seg.
   */
  function Progress(seg: seq<seq<seq<nat>>>, sorted: seq<seq<seq<nat>>>, idx: nat, ring: nat): (r: seq<seq<seq<nat>>>)
    requires Shaped(seg) && Shaped(sorted)
    ensures Shaped(r)
    ensures forall q, b :: 0 <= q < 4 && 0 <= b < 4 ==> r[q][b] == if Visited(q, b, idx, ring) then sorted[q][b] else seg[q][b]
  {
    seq(4, q requires 0 <= q < 4 => seq(4, b requires 0 <= b < 4 =>
      if Visited(q, b, idx, ring) then sorted[q][b] else seg[q][b]))
  }

  lemma ProgressInRange(seg: seq<seq<seq<nat>>>, sorted: seq<seq<seq<nat>>>, idx: nat, ring: nat, n: nat)
    requires IndexesBelow(seg, n) && IndexesBelow(sorted, n)
    ensures IndexesBelow(Progress(seg, sorted, idx, ring), n)
  {
  }

  /** Before the id pass nothing is sorted. */
  lemma ProgressStart(seg: seq<seq<seq<nat>>>, sorted: seq<seq<seq<nat>>>)
    requires Shaped(seg) && Shaped(sorted)
    ensures Progress(seg, sorted, 0, 0) == seg
  {
    var r := Progress(seg, sorted, 0, 0);
    forall q | 0 <= q < 4 ensures r[q] == seg[q] {
      assert forall b :: 0 <= b < 4 ==> !Visited(q, b, 0, 0);
    }
  }

  /** Sorting bucket (QuadOrder[idx], ring) moves the id pass on to the next ring. */
  lemma ProgressStep(seg: seq<seq<seq<nat>>>, sorted: seq<seq<seq<nat>>>, idx: nat, ring: nat)
    requires Shaped(seg) && Shaped(sorted) && idx < 4 && ring < 4
    ensures var cur := Progress(seg, sorted, idx, ring);
            var q := QuadOrder[idx];
            cur[q][ring] == seg[q][ring] &&
            cur[q := cur[q][ring := sorted[q][ring]]] == Progress(seg, sorted, idx, ring + 1)
  {
    QuadPosOfOrder(idx);
    var cur := Progress(seg, sorted, idx, ring);
    var next := Progress(seg, sorted, idx, ring + 1);
    var q := QuadOrder[idx];
    assert !Visited(q, ring, idx, ring);
    StepRow(seg, sorted, idx, ring);
    forall a | 0 <= a < 4 && a != q ensures cur[a] == next[a] {
      StepOtherRow(seg, sorted, idx, ring, a);
    }
    var upd := cur[q := cur[q][ring := sorted[q][ring]]];
    assert forall a :: 0 <= a < 4 ==> upd[a] == next[a];
  }

  lemma StepRow(seg: seq<seq<seq<nat>>>, sorted: seq<seq<seq<nat>>>, idx: nat, ring: nat)
    requires Shaped(seg) && Shaped(sorted) && idx < 4 && ring < 4
    ensures var q := QuadOrder[idx];
            Progress(seg, sorted, idx, ring)[q][ring := sorted[q][ring]] == Progress(seg, sorted, idx, ring + 1)[q]
  {
    QuadPosOfOrder(idx);
    var q := QuadOrder[idx];
    var cur := Progress(seg, sorted, idx, ring)[q];
    var next := Progress(seg, sorted, idx, ring + 1)[q];
    var row := cur[ring := sorted[q][ring]];
    forall b | 0 <= b < 4 ensures row[b] == next[b] {
      if b != ring {
        assert Visited(q, b, idx, ring + 1) == Visited(q, b, idx, ring);
      }
    }
  }

  lemma StepOtherRow(seg: seq<seq<seq<nat>>>, sorted: seq<seq<seq<nat>>>, idx: nat, ring: nat, a: nat)
    requires Shaped(seg) && Shaped(sorted) && idx < 4 && ring < 4 && a < 4 && a != QuadOrder[idx]
    ensures Progress(seg, sorted, idx, ring)[a] == Progress(seg, sorted, idx, ring + 1)[a]
  {
    QuadPosOfOrder(idx);
    assert QuadPos(a) != idx;
    var cur := Progress(seg, sorted, idx, ring)[a];
    var next := Progress(seg, sorted, idx, ring + 1)[a];
    forall b | 0 <= b < 4 ensures cur[b] == next[b] {
      assert Visited(a, b, idx, ring + 1) == Visited(a, b, idx, ring);
    }
  }

  /** Past the last ring of a quadrant, the id pass stands at ring 0 of the next one. */
  lemma ProgressNextQuadrant(seg: seq<seq<seq<nat>>>, sorted: seq<seq<seq<nat>>>, idx: nat)
    requires Shaped(seg) && Shaped(sorted) && idx < 4
    ensures Progress(seg, sorted, idx, 4) == Progress(seg, sorted, idx + 1, 0)
  {
    var a := Progress(seg, sorted, idx, 4);
    var b := Progress(seg, sorted, idx + 1, 0);
    forall q | 0 <= q < 4 ensures a[q] == b[q] {
      assert forall r :: 0 <= r < 4 ==> Visited(q, r, idx, 4) == Visited(q, r, idx + 1, 0);
    }
  }

  /** After all four quadrants every bucket is sorted. */
  lemma ProgressEnd(seg: seq<seq<seq<nat>>>, sorted: seq<seq<seq<nat>>>)
    requires Shaped(seg) && Shaped(sorted)
    ensures Progress(seg, sorted, 4, 0) == sorted
  {
    var a := Progress(seg, sorted, 4, 0);
    forall q | 0 <= q < 4 ensures a[q] == sorted[q] {
      assert forall r :: 0 <= r < 4 ==> Visited(q, r, 4, 0);
    }
  }

  /** When the id pass has finished, every bucket is sorted and the entries are numbered along IdOrder. */
  lemma IdPassDone(es0: seq<Entry>, seg0: seq<seq<seq<nat>>>, cmp: (string, string) -> int,
                   sorted: seq<seq<seq<nat>>>, seg: seq<seq<seq<nat>>>, es: seq<Entry>)
    requires IndexesBelow(seg0, |es0|) && sorted == SortAll(seg0, Labels(es0), cmp)
    requires seg == Progress(seg0, sorted, 4, 0)
    requires InRange(Traversed(sorted, 4), |es0|) && es == Stamp(es0, Traversed(sorted, 4), 1)
    ensures seg == sorted && IndexesBelow(seg, |es0|) && InRange(IdOrder(seg), |es0|)
    ensures es == Stamp(es0, IdOrder(seg), 1)
  {
    ProgressEnd(seg0, sorted);
  }

  lemma {:induction false} ConcatInRange(bs: seq<seq<nat>>, k: nat, n: nat)
    requires k <= |bs| && forall r :: 0 <= r < |bs| ==> InRange(bs[r], n)
    ensures InRange(Concat(bs, k), n)
  {
    if k > 0 {
      ConcatInRange(bs, k - 1, n);
    }
  }

  /**
   * The entries after the ids start, start+1, ... were stamped on o[0], o[1], ...
   * in turn. Nothing but ids changes.
   */
  function Stamp(es: seq<Entry>, o: seq<nat>, start: nat): (r: seq<Entry>)
    requires InRange(o, |es|)
    ensures |r| == |es|
    decreases |o|
  {
    if o == [] then es
    else
      var prev := Stamp(es, o[..|o| - 1], start);
      var last := o[|o| - 1];
      prev[last := prev[last].(id := start + |o| - 1)]
  }

  /** Stamping changes nothing but ids. */
  lemma {:induction false} StampKeeps(es: seq<Entry>, o: seq<nat>, start: nat)
    requires InRange(o, |es|)
    ensures forall i :: 0 <= i < |es| ==> Stamp(es, o, start)[i] == es[i].(id := Stamp(es, o, start)[i].id)
    ensures Labels(Stamp(es, o, start)) == Labels(es)
  {
    if o != [] {
      StampKeeps(es, o[..|o| - 1], start);
    }
  }

  /** Stamping two runs in turn is stamping their concatenation. */
  lemma {:induction false} StampConcat(es: seq<Entry>, a: seq<nat>, b: seq<nat>, start: nat)
    requires InRange(a, |es|) && InRange(b, |es|)
    ensures InRange(a + b, |es|)
    ensures Stamp(es, a + b, start) == Stamp(Stamp(es, a, start), b, start + |a|)
  {
    if b != [] {
      var b' := b[..|b| - 1];
      var ab := a + b;
      var last := b[|b| - 1];
      assert ab[..|ab| - 1] == a + b';
      assert ab[|ab| - 1] == last;
      StampConcat(es, a, b', start);
      var mid := Stamp(es, a, start);
      var prev1 := Stamp(es, a + b', start);
      var prev2 := Stamp(mid, b', start + |a|);
      assert prev1 == prev2;
      assert Stamp(es, ab, start) == prev1[last := prev1[last].(id := start + |ab| - 1)];
      assert Stamp(mid, b, start + |a|) == prev2[last := prev2[last].(id := start + |a| + |b| - 1)];
    } else {
      assert a + b == a;
    }
  }

  /** Stamping the first ring buckets of a row and then bucket ring is stamping the first ring + 1. */
  lemma StampNextBucket(es: seq<Entry>, row: seq<seq<nat>>, ring: nat, start: nat,
                         reached: seq<Entry>, bucket: seq<nat>, next: nat, after: seq<Entry>)
    requires ring < |row| && forall r :: 0 <= r < |row| ==> InRange(row[r], |es|)
    requires |reached| == |es| && InRange(Concat(row, ring), |es|)
    requires reached == Stamp(es, Concat(row, ring), start)
    requires bucket == row[ring] && next == start + |Concat(row, ring)|
    requires after == Stamp(reached, bucket, next)
    ensures InRange(Concat(row, ring + 1), |es|)
    ensures after == Stamp(es, Concat(row, ring + 1), start)
  {
    StampConcat(es, Concat(row, ring), row[ring], start);
  }

  /** Numbering the quadrants visited so far and then quadrant QuadOrder[idx] is numbering the first idx + 1. */
  lemma StampNextQuadrant(es: seq<Entry>, sorted: seq<seq<seq<nat>>>, idx: nat,
                          reached: seq<Entry>, next: nat, after: seq<Entry>, id: nat)
    requires IndexesBelow(sorted, |es|) && idx < 4 && InRange(Traversed(sorted, idx), |es|)
    requires reached == Stamp(es, Traversed(sorted, idx), 1)
    requires next == 1 + |Traversed(sorted, idx)|
    requires InRange(Concat(sorted[QuadOrder[idx]], 4), |es|)
    requires after == Stamp(reached, Concat(sorted[QuadOrder[idx]], 4), next)
    requires id == next + |Concat(sorted[QuadOrder[idx]], 4)|
    ensures InRange(Traversed(sorted, idx + 1), |es|)
    ensures after == Stamp(es, Traversed(sorted, idx + 1), 1)
    ensures id == 1 + |Traversed(sorted, idx + 1)|
  {
    StampConcat(es, Traversed(sorted, idx), Concat(sorted[QuadOrder[idx]], 4), 1);
  }

  predicate Distinct(o: seq<nat>) {
    forall p, q :: 0 <= p < q < |o| ==> o[p] != o[q]
  }

  /** With no index twice, o[k] ends up with id start + k. */
  lemma {:induction false} StampIds(es: seq<Entry>, o: seq<nat>, start: nat)
    requires InRange(o, |es|) && Distinct(o)
    ensures forall k :: 0 <= k < |o| ==> Stamp(es, o, start)[o[k]].id == start + k
  {
    if o != [] {
      var init := o[..|o| - 1];
      StampIds(es, init, start);
      forall k | 0 <= k < |o| ensures Stamp(es, o, start)[o[k]].id == start + k {
        if k < |o| - 1 {
          assert o[k] == init[k] && o[k] != o[|o| - 1];
        }
      }
    }
  }

  lemma {:induction false} RangeMultiplicity(n: nat, v: nat)
    ensures multiset(Range(n))[v] == if v < n then 1 else 0
  {
    if n > 0 {
      assert Range(n) == Range(n - 1) + [n - 1];
      RangeMultiplicity(n - 1, v);
    }
  }

  /** A sequence with the elements of 0..n-1, once each, has length n, indices below n and no repeats. */
  lemma DistinctOfRange(o: seq<nat>, n: nat)
    requires multiset(o) == multiset(Range(n))
    ensures |o| == n && InRange(o, n) && Distinct(o)
  {
    assert |o| == |multiset(o)| == |multiset(Range(n))| == n;
    forall k | 0 <= k < |o| ensures o[k] < n {
      assert o[k] in multiset(o);
      RangeMultiplicity(n, o[k]);
    }
    forall p, q | 0 <= p < q < |o| ensures o[p] != o[q] {
      var v := o[p];
      assert o == o[..q] + o[q..];
      assert v in multiset(o[..q]);
      if o[q] == v {
        assert v in multiset(o[q..]);
        assert multiset(o)[v] == multiset(o[..q])[v] + multiset(o[q..])[v];
        RangeMultiplicity(n, v);
      }
    }
  }

  lemma {:induction false} ConcatLength(bs: seq<seq<nat>>, r: nat, k: nat)
    requires r < k <= |bs|
    ensures |Concat(bs, r)| + |bs[r]| <= |Concat(bs, k)|
  {
    if r < k - 1 {
      ConcatLength(bs, r, k - 1);
    }
  }

  /** Element p of bucket r sits at |Concat(bs, r)| + p of the concatenation. */
  lemma {:induction false} ConcatIndex(bs: seq<seq<nat>>, r: nat, p: nat, k: nat)
    requires r < k <= |bs| && p < |bs[r]|
    ensures |Concat(bs, r)| + p < |Concat(bs, k)|
    ensures Concat(bs, k)[|Concat(bs, r)| + p] == bs[r][p]
  {
    if r < k - 1 {
      ConcatIndex(bs, r, p, k - 1);
    }
  }

  /** The entries after the id pass, given the entries and comparator it starts from. */
  function Identified(es: seq<Entry>, cmp: (string, string) -> int): seq<Entry> {
    PartitionedBuckets(es);
    var sorted := SortAll(Partitioned(es), Labels(es), cmp);
    InRangeOfOrder(sorted, |es|);
    Stamp(es, IdOrder(sorted), 1)
  }

  lemma {:induction false} TraversedInRange(seg: seq<seq<seq<nat>>>, n: nat, idx: nat)
    requires IndexesBelow(seg, n) && idx <= 4
    ensures InRange(Traversed(seg, idx), n)
  {
    if idx > 0 {
      TraversedInRange(seg, n, idx - 1);
      ConcatAll4(seg[QuadOrder[idx - 1]]);
    }
  }

  lemma InRangeOfOrder(seg: seq<seq<seq<nat>>>, n: nat)
    requires IndexesBelow(seg, n)
    ensures InRange(IdOrder(seg), n)
  {
    TraversedInRange(seg, n, 4);
  }

  /** After partition and sort, the id pass numbers ring 0's bucket, then ring 1's, ring 2's and ring 3's, of quadrant 2. */
  lemma IdOrderOfPartition(es: seq<Entry>, cmp: (string, string) -> int)
    ensures IndexesBelow(Partitioned(es), |es|)
    ensures var sorted := SortAll(Partitioned(es), Labels(es), cmp);
            IdOrder(sorted) == Concat(sorted[2], 4) == All4(sorted[2])
  {
    PartitionedBuckets(es);
    var sorted := SortAll(Partitioned(es), Labels(es), cmp);
    forall q | 0 <= q < 4 ensures Concat(sorted[q], 4) == All4(sorted[q]) {
      ConcatAll4(sorted[q]);
    }
    forall q | 0 <= q < 4 && q != 2 ensures All4(sorted[q]) == [] {
      forall b | 0 <= b < 4 ensures sorted[q][b] == [] {
        assert Partitioned(es)[q][b] == [];
        assert multiset(sorted[q][b]) == multiset{};
      }
    }
    assert Traversed(sorted, 1) == All4(sorted[2]);
    assert Traversed(sorted, 2) == All4(sorted[2]);
    assert Traversed(sorted, 3) == All4(sorted[2]);
  }

  /** The id pass numbers each entry exactly once: its order is a permutation of 0..n-1. */
  lemma IdOrderIsPermutation(es: seq<Entry>, cmp: (string, string) -> int)
    requires AllRingsValid(es)
    ensures IndexesBelow(Partitioned(es), |es|)
    ensures multiset(IdOrder(SortAll(Partitioned(es), Labels(es), cmp))) == multiset(Range(|es|))
  {
    IdOrderOfPartition(es, cmp);
    PartitionMultiset(es, |es|);
    var sorted := SortAll(Partitioned(es), Labels(es), cmp);
    var p := Partitioned(es);
    assert forall r :: 0 <= r < 4 ==> multiset(sorted[2][r]) == multiset(p[2][r]);
  }

  /** Every index below n appears in an order holding 0..n-1, at some position. */
  lemma PositionOf(order: seq<nat>, n: nat, i: nat) returns (k: nat)
    requires multiset(order) == multiset(Range(n)) && i < n
    ensures k < |order| && order[k] == i
  {
    RangeMultiplicity(n, i);
    assert i in multiset(order);
    k :| 0 <= k < |order| && order[k] == i;
  }

  /** Stamping 1, 2, ... along an order that holds every entry once gives the ids 1..n, each once. */
  lemma StampPermutation(es: seq<Entry>, order: seq<nat>)
    requires multiset(order) == multiset(Range(|es|))
    ensures |order| == |es| && InRange(order, |es|)
    ensures forall k :: 0 <= k < |es| ==> Stamp(es, order, 1)[order[k]].id == k + 1
    ensures forall i :: 0 <= i < |es| ==> 1 <= Stamp(es, order, 1)[i].id <= |es|
    ensures forall i, j :: 0 <= i < |es| && 0 <= j < |es| && i != j ==> Stamp(es, order, 1)[i].id != Stamp(es, order, 1)[j].id
  {
    DistinctOfRange(order, |es|);
    StampIds(es, order, 1);
    var f := Stamp(es, order, 1);
    forall i | 0 <= i < |es| ensures 1 <= f[i].id <= |es| {
      var k := PositionOf(order, |es|, i);
      assert f[order[k]].id == k + 1;
    }
    forall i, j | 0 <= i < |es| && 0 <= j < |es| && i != j ensures f[i].id != f[j].id {
      var ki := PositionOf(order, |es|, i);
      var kj := PositionOf(order, |es|, j);
      assert f[order[ki]].id == ki + 1 && f[order[kj]].id == kj + 1;
    }
  }

  /**
   * The ids are 1..n, each used once: the k-th entry of the id order gets
   * id k + 1, every id lies in 1..n and no two entries share one. Nothing
   * but the ids changes.
   */
  lemma IdsArePermutation(es: seq<Entry>, cmp: (string, string) -> int)
    requires AllRingsValid(es)
    ensures |Identified(es, cmp)| == |es|
    ensures IndexesBelow(Partitioned(es), |es|)
    ensures var order := IdOrder(SortAll(Partitioned(es), Labels(es), cmp));
            |order| == |es| && InRange(order, |es|) &&
            forall k :: 0 <= k < |es| ==> Identified(es, cmp)[order[k]].id == k + 1
    ensures forall i :: 0 <= i < |es| ==> 1 <= Identified(es, cmp)[i].id <= |es|
    ensures forall i, j :: 0 <= i < |es| && 0 <= j < |es| && i != j ==> Identified(es, cmp)[i].id != Identified(es, cmp)[j].id
    ensures forall i :: 0 <= i < |es| ==> Identified(es, cmp)[i] == es[i].(id := Identified(es, cmp)[i].id)
  {
    IdOrderIsPermutation(es, cmp);
    var order := IdOrder(SortAll(Partitioned(es), Labels(es), cmp));
    StampPermutation(es, order);
    StampKeeps(es, order, 1);
    assert Identified(es, cmp) == Stamp(es, order, 1);
  }

  /** Where entry i lands: at position p of its ring's sorted bucket, so its id is |buckets before| + p + 1. */
  lemma IdOfEntry(es: seq<Entry>, cmp: (string, string) -> int, i: nat) returns (p: nat)
    requires AllRingsValid(es) && i < |es|
    ensures IndexesBelow(Partitioned(es), |es|)
    ensures var sorted := SortAll(Partitioned(es), Labels(es), cmp)[2];
            0 <= es[i].ring < 4 && p < |sorted[es[i].ring]| && sorted[es[i].ring][p] == i &&
            Identified(es, cmp)[i].id == |Concat(sorted, es[i].ring)| + p + 1
  {
    IdsArePermutation(es, cmp);
    IdOrderOfPartition(es, cmp);
    PartitionedBuckets(es);
    var sorted := SortAll(Partitioned(es), Labels(es), cmp)[2];
    var r := es[i].ring;
    assert i in Partitioned(es)[2][r];
    assert i in multiset(sorted[r]);
    p :| 0 <= p < |sorted[r]| && sorted[r][p] == i;
    ConcatIndex(sorted, r, p, 4);
    var order := IdOrder(SortAll(Partitioned(es), Labels(es), cmp));
    assert order[|Concat(sorted, r)| + p] == i;
  }

  /** Every entry of a lower ring gets a smaller id than every entry of a higher ring. */
  lemma IdsFollowRings(es: seq<Entry>, cmp: (string, string) -> int, i: nat, j: nat)
    requires AllRingsValid(es) && i < |es| && j < |es|
    requires es[i].ring < es[j].ring
    ensures Identified(es, cmp)[i].id < Identified(es, cmp)[j].id
  {
    var pi := IdOfEntry(es, cmp, i);
    var pj := IdOfEntry(es, cmp, j);
    var sorted := SortAll(Partitioned(es), Labels(es), cmp)[2];
    ConcatLength(sorted, es[i].ring, es[j].ring);
  }

  /**
   * Within a ring, ids follow the labels: a label that sorts strictly earlier
   * gets the smaller id, and of two labels that compare equal the entry that
   * comes first in the input gets the smaller id.
   */
  lemma IdsFollowLabels(es: seq<Entry>, cmp: (string, string) -> int, i: nat, j: nat)
    requires AllRingsValid(es) && TotalPreorder(cmp) && i < |es| && j < |es|
    requires es[i].ring == es[j].ring
    ensures cmp(es[i].labelText, es[j].labelText) <= 0 && cmp(es[j].labelText, es[i].labelText) > 0 ==>
              Identified(es, cmp)[i].id < Identified(es, cmp)[j].id
    ensures cmp(es[i].labelText, es[j].labelText) <= 0 && cmp(es[j].labelText, es[i].labelText) <= 0 && i < j ==>
              Identified(es, cmp)[i].id < Identified(es, cmp)[j].id
  {
    var pi := IdOfEntry(es, cmp, i);
    var pj := IdOfEntry(es, cmp, j);
    PartitionedBuckets(es);
    var r := es[i].ring;
    var labels := Labels(es);
    var bucket := SortByLabel(Partitioned(es)[2][r], labels, cmp);
    assert bucket == SortAll(Partitioned(es), labels, cmp)[2][r];
    SortByLabelSorted(Partitioned(es)[2][r], labels, cmp);
    assert pj < pi ==> Before(labels, cmp, j, i);
    assert pi == pj ==> i == j;
  }
}
