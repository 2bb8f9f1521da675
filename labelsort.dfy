/**
 * The sort of one bucket by label. Array.prototype.sort is stable and the
 * comparator is a.label.localeCompare(b.label), so a bucket of entry indices
 * in input order comes out ordered by label, with equal labels kept in input
 * order. labels[i] is the label of entry i.
 */
module LabelSort {

  /** Label a sorts no later than label b: localeCompare(a, b) <= 0. */
  predicate Leq(cmp: (string, string) -> int, a: string, b: string) {
    cmp(a, b) <= 0
  }

  /** localeCompare orders all strings: any two compare one way or the other, transitively. */
  ghost predicate TotalPreorder(cmp: (string, string) -> int) {
    && (forall a, b :: cmp(a, b) <= 0 || cmp(b, a) <= 0)
    && (forall a, b, c :: cmp(a, b) <= 0 && cmp(b, c) <= 0 ==> cmp(a, c) <= 0)
  }

  /** Every element of s indexes a label. */
  predicate InRange(s: seq<nat>, n: nat) {
    forall k :: 0 <= k < |s| ==> s[k] < n
  }

  predicate Increasing(s: seq<nat>) {
    forall p, q :: 0 <= p < q < |s| ==> s[p] < s[q]
  }

  /** Entry a sorts before entry b: a smaller label, or labels that compare equal and a earlier in the input. */
  predicate Before(labels: seq<string>, cmp: (string, string) -> int, a: nat, b: nat)
    requires a < |labels| && b < |labels|
  {
    Leq(cmp, labels[a], labels[b]) && (Leq(cmp, labels[b], labels[a]) ==> a < b)
  }

  ghost predicate SortedBy(labels: seq<string>, cmp: (string, string) -> int, s: seq<nat>)
    requires InRange(s, |labels|)
  {
    forall p, q :: 0 <= p < q < |s| ==> Before(labels, cmp, s[p], s[q])
  }

  /** Inserts x into t after every element whose label sorts no later than x's. */
  function Insert(x: nat, t: seq<nat>, labels: seq<string>, cmp: (string, string) -> int): (r: seq<nat>)
    requires x < |labels| && InRange(t, |labels|)
    ensures multiset(r) == multiset(t) + multiset{x}
    ensures |r| == |t| + 1 && InRange(r, |labels|)
  {
    if t == [] then [x]
    else if Leq(cmp, labels[t[0]], labels[x]) then
      assert t == [t[0]] + t[1..];
      [t[0]] + Insert(x, t[1..], labels, cmp)
    else [x] + t
  }

  /** The bucket after entries.sort(...): insertion sort, each element inserted after its equals. */
  function SortByLabel(s: seq<nat>, labels: seq<string>, cmp: (string, string) -> int): (r: seq<nat>)
    requires InRange(s, |labels|)
    ensures multiset(r) == multiset(s)
    ensures |r| == |s| && InRange(r, |labels|)
  {
    if s == [] then []
    else
      assert s == s[..|s| - 1] + [s[|s| - 1]];
      Insert(s[|s| - 1], SortByLabel(s[..|s| - 1], labels, cmp), labels, cmp)
  }

  /** Inserting an element larger than every element of a sorted bucket keeps it sorted. */
  lemma {:induction false} InsertSorted(x: nat, t: seq<nat>, labels: seq<string>, cmp: (string, string) -> int)
    requires TotalPreorder(cmp)
    requires x < |labels| && InRange(t, |labels|)
    requires SortedBy(labels, cmp, t)
    requires forall k :: 0 <= k < |t| ==> t[k] < x
    ensures SortedBy(labels, cmp, Insert(x, t, labels, cmp))
  {
    if t == [] {
    } else if Leq(cmp, labels[t[0]], labels[x]) {
      SortedTail(t, labels, cmp);
      InsertSorted(x, t[1..], labels, cmp);
      var rest := Insert(x, t[1..], labels, cmp);
      InsertAfterHead(x, t, rest, labels, cmp);
      var r := [t[0]] + rest;
      forall p, q | 0 <= p < q < |r| ensures Before(labels, cmp, r[p], r[q]) {
        assert r[q] == rest[q - 1];
        if p > 0 {
          assert r[p] == rest[p - 1];
        }
      }
    } else {
      InsertFront(x, t, labels, cmp);
    }
  }

  /** The head of a sorted bucket that x goes after sorts before everything the insertion leaves behind it. */
  lemma InsertAfterHead(x: nat, t: seq<nat>, rest: seq<nat>, labels: seq<string>, cmp: (string, string) -> int)
    requires x < |labels| && InRange(t, |labels|)
    requires SortedBy(labels, cmp, t)
    requires forall k :: 0 <= k < |t| ==> t[k] < x
    requires t != [] && Leq(cmp, labels[t[0]], labels[x])
    requires rest == Insert(x, t[1..], labels, cmp)
    ensures forall q :: 0 <= q < |rest| ==> Before(labels, cmp, t[0], rest[q])
  {
    forall q | 0 <= q < |rest| ensures Before(labels, cmp, t[0], rest[q]) {
      assert rest[q] in multiset(rest);
      if rest[q] != x {
        assert rest[q] in multiset(t[1..]);
        var j :| 0 <= j < |t[1..]| && t[1..][j] == rest[q];
        assert t[j + 1] == rest[q];
      }
    }
  }

  /** x goes in front of a sorted bucket whose first label sorts strictly after x's. */
  lemma InsertFront(x: nat, t: seq<nat>, labels: seq<string>, cmp: (string, string) -> int)
    requires TotalPreorder(cmp)
    requires x < |labels| && InRange(t, |labels|)
    requires SortedBy(labels, cmp, t)
    requires t != [] && !Leq(cmp, labels[t[0]], labels[x])
    ensures SortedBy(labels, cmp, [x] + t)
  {
    var r := [x] + t;
    assert Leq(cmp, labels[x], labels[t[0]]);
    forall q | 1 <= q < |r| ensures Before(labels, cmp, x, r[q]) {
      if q > 1 {
        assert Before(labels, cmp, t[0], t[q - 1]);
        assert r[q] == t[q - 1];
        assert Leq(cmp, labels[x], labels[t[q - 1]]);
      }
    }
    forall p, q | 1 <= p < q < |r| ensures Before(labels, cmp, r[p], r[q]) {
      assert r[p] == t[p - 1] && r[q] == t[q - 1];
    }
  }

  /**
   * A bucket held in input order (increasing entry index) comes out sorted:
   * by label, and by input order among labels that compare equal.
   */
  lemma {:induction false} SortByLabelSorted(s: seq<nat>, labels: seq<string>, cmp: (string, string) -> int)
    requires TotalPreorder(cmp) && InRange(s, |labels|) && Increasing(s)
    ensures SortedBy(labels, cmp, SortByLabel(s, labels, cmp))
  {
    if s != [] {
      var init := s[..|s| - 1];
      var x := s[|s| - 1];
      SortByLabelSorted(init, labels, cmp);
      var t := SortByLabel(init, labels, cmp);
      forall k | 0 <= k < |t| ensures t[k] < x {
        assert t[k] in multiset(t);
        var j :| 0 <= j < |init| && init[j] == t[k];
      }
      InsertSorted(x, t, labels, cmp);
    }
  }

  /** Two sorted orderings of the same entries start with the same entry. */
  lemma SortedHeads(a: seq<nat>, b: seq<nat>, labels: seq<string>, cmp: (string, string) -> int)
    requires InRange(a, |labels|) && InRange(b, |labels|)
    requires multiset(a) == multiset(b) && a != []
    requires SortedBy(labels, cmp, a) && SortedBy(labels, cmp, b)
    ensures b != [] && a[0] == b[0]
  {
    assert a[0] in multiset(b);
    var i :| 0 <= i < |b| && b[i] == a[0];
    assert b[0] in multiset(a);
    var j :| 0 <= j < |a| && a[j] == b[0];
  }

  lemma SortedTail(a: seq<nat>, labels: seq<string>, cmp: (string, string) -> int)
    requires InRange(a, |labels|) && a != [] && SortedBy(labels, cmp, a)
    ensures InRange(a[1..], |labels|) && SortedBy(labels, cmp, a[1..])
  {
    forall p, q | 0 <= p < q < |a[1..]| ensures Before(labels, cmp, a[1..][p], a[1..][q]) {
      assert a[1..][p] == a[p + 1] && a[1..][q] == a[q + 1];
    }
  }

  /**
   * The sorted bucket is the only one: two orderings of the same entries that
   * are both sorted are equal. So the model agrees with any stable sort.
   */
  lemma {:induction false} SortedUnique(a: seq<nat>, b: seq<nat>, labels: seq<string>, cmp: (string, string) -> int)
    requires InRange(a, |labels|) && InRange(b, |labels|)
    requires multiset(a) == multiset(b)
    requires SortedBy(labels, cmp, a) && SortedBy(labels, cmp, b)
    ensures a == b
  {
    if a != [] {
      SortedHeads(a, b, labels, cmp);
      assert a == [a[0]] + a[1..] && b == [b[0]] + b[1..];
      assert multiset(a[1..]) == multiset(a) - multiset{a[0]};
      assert multiset(b[1..]) == multiset(b) - multiset{b[0]};
      SortedTail(a, labels, cmp);
      SortedTail(b, labels, cmp);
      SortedUnique(a[1..], b[1..], labels, cmp);
    } else {
      assert |b| == |multiset(b)| == 0;
    }
  }
}
