/**
 * Where legend_transform puts a legend line: the header of a ring's list
 * (no index) or item index of it. Only the list of quadrant 2 is drawn, so
 * the lemmas are about that one.
 */
module Legend {
  import opened Wrappers
  import opened Geometry
  import opened Placement
  import opened LabelSort
  import opened Buckets

  /** legend_offset: the top left corner of each quadrant's legend. */
  const LegendOffset: seq<Cartesian> :=
    [Cartesian(450.0, 90.0), Cartesian(-675.0, 90.0), Cartesian(-675.0, -310.0), Cartesian(450.0, -310.0)]

  /** The number of entries in the first k buckets of a row. */
  function SizeSum(row: seq<seq<nat>>, k: nat): nat
    requires k <= |row|
  {
    if k == 0 then 0 else SizeSum(row, k - 1) + |row[k - 1]|
  }

  /** The entries in the first k buckets are those numbered before bucket k. */
  lemma {:induction false} SizeSumConcat(row: seq<seq<nat>>, k: nat)
    requires k <= |row|
    ensures SizeSum(row, k) == |Concat(row, k)|
  {
    if k > 0 {
      SizeSumConcat(row, k - 1);
    }
  }

  /** The vertical step of a line before spacing: -16 for a header, 12 per unit of index for an item. */
  function LineBase(index: Option<real>): real {
    if index.None? then -16.0 else index.value * 12.0
  }

  /**
   * The legend position in closed form. Quadrant 2 stacks all four rings
   * in one column: ring 0 starts 52 above the base, ring r > 0 sits below
   * the items of rings 0..r-1 and 40 per earlier ring. The other quadrants
   * lay rings 0 and 1 in one column and rings 2 and 3 in a second one 120
   * to the right, an odd ring below its even neighbour.
   */
  function LegendPoint(seg: seq<seq<seq<nat>>>, quadrant: nat, ring: nat, index: Option<real>): Cartesian
    requires Shaped(seg) && quadrant < 4 && ring < 4
  {
    var base := LineBase(index);
    var dy := if quadrant == 2 then
                if ring == 0 then base - 52.0
                else base - 16.0 + (SizeSum(seg[2], ring) as real) * 12.0 + ((ring - 1) as real) * 40.0
              else if ring % 2 == 1 then base + 36.0 + (|seg[quadrant][ring - 1]| as real) * 12.0
              else base;
    var dx := if quadrant != 2 && ring >= 2 then 120.0 else 0.0;
    Cartesian(LegendOffset[quadrant].x + dx, LegendOffset[quadrant].y + dy * 1.1)
  }

  /** The index the legend list gives its k-th item: k * 1.1. */
  function ItemIndex(k: nat): Option<real> {
    Some((k as real) * 1.1)
  }

  /** In quadrant 2 every ring's header lies below the previous ring's header, and all share one column. */
  lemma HeadersDescend(seg: seq<seq<seq<nat>>>, ring: nat)
    requires Shaped(seg) && ring < 3
    ensures LegendPoint(seg, 2, ring, None).y < LegendPoint(seg, 2, ring + 1, None).y
    ensures LegendPoint(seg, 2, ring, None).x == LegendPoint(seg, 2, ring + 1, None).x == LegendOffset[2].x
  {
  }

  /** The items of a ring lie below its header, each below the one before. */
  lemma ItemsDescend(seg: seq<seq<seq<nat>>>, quadrant: nat, ring: nat, k: nat)
    requires Shaped(seg) && quadrant < 4 && ring < 4
    ensures LegendPoint(seg, quadrant, ring, None).y < LegendPoint(seg, quadrant, ring, ItemIndex(0)).y
    ensures LegendPoint(seg, quadrant, ring, ItemIndex(k)).y < LegendPoint(seg, quadrant, ring, ItemIndex(k + 1)).y
    ensures LegendPoint(seg, quadrant, ring, ItemIndex(k)).x == LegendPoint(seg, quadrant, ring, None).x
  {
  }

  /**
   * In quadrant 2 the last item of ring r stays above the header of ring
   * r + 1 exactly when ring r holds at most 27 entries (ring 0) or at most
   * 30 (rings 1 and 2): items step down 13.2 apart, the next header only 12
   * per item, plus a fixed gap.
   */
  lemma LastItemAboveNextHeader(seg: seq<seq<seq<nat>>>, ring: nat)
    requires Shaped(seg) && ring < 3 && |seg[2][ring]| > 0
    ensures var n := |seg[2][ring]|;
            LegendPoint(seg, 2, ring, ItemIndex(n - 1)).y < LegendPoint(seg, 2, ring + 1, None).y
            <==> n <= (if ring == 0 then 27 else 30)
  {
    var n := |seg[2][ring]|;
    assert SizeSum(seg[2], ring + 1) == SizeSum(seg[2], ring) + n;
  }

  /**
   * The legend of quadrant 2 numbers its lines consecutively: after the id
   * pass, item p of ring r's list is the entry with id SizeSum + p + 1,
   * where SizeSum counts the entries listed under rings 0..r-1.
   */
  lemma LegendListsIdsInOrder(es: seq<Entry>, cmp: (string, string) -> int, ring: nat, p: nat)
    requires AllRingsValid(es) && ring < 4
    ensures IndexesBelow(Partitioned(es), |es|)
    ensures var sorted := SortAll(Partitioned(es), Labels(es), cmp);
            p < |sorted[2][ring]| ==>
              sorted[2][ring][p] < |es| &&
              Identified(es, cmp)[sorted[2][ring][p]].id == SizeSum(sorted[2], ring) + p + 1
  {
    IdsArePermutation(es, cmp);
    IdOrderOfPartition(es, cmp);
    var sorted := SortAll(Partitioned(es), Labels(es), cmp);
    if p < |sorted[2][ring]| {
      ConcatIndex(sorted[2], ring, p, 4);
      SizeSumConcat(sorted[2], ring);
      var order := IdOrder(sorted);
      assert order[|Concat(sorted[2], ring)| + p] == sorted[2][ring][p];
    }
  }
}
