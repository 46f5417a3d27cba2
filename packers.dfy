/**
 * `first_fit` and `first_fit_decreasing`: the shared insertion loop run on
 * the items in input order, and on the items stably sorted by descending
 * weight.
 */
module Packers {
  import opened Bounds
  import opened GreedyInsertion

  /** The tolerance `bin_packing_loops.py` adds to the capacity in its fit test (`1e-9`). */
  const Tolerance: real := 0.000000001

  /** `list(enumerate(durations))`. */
  function Enumerate(durations: seq<real>): (items: seq<Item>)
    ensures |items| == |durations|
    ensures forall k :: 0 <= k < |items| ==> items[k] == Item(k, durations[k])
  {
    seq(|durations|, k requires 0 <= k < |durations| => Item(k, durations[k]))
  }

  // ------------------------------------------------------------ the sort

  /** Inserts `x` after every element at least as heavy, as a stable sort does with a later element. */
  function InsertByWeight(sorted: seq<Item>, x: Item): (r: seq<Item>)
    ensures multiset(r) == multiset(sorted) + multiset{x}
  {
    if sorted == [] then [x]
    else if sorted[0].weight >= x.weight then
      assert sorted == [sorted[0]] + sorted[1..];
      [sorted[0]] + InsertByWeight(sorted[1..], x)
    else [x] + sorted
  }

  /**
   * `indexed.sort(key=lambda x: -x[1])`: Python's sort is stable, so the
   * result is the items by descending weight, equal weights in input order.
   */
  function SortByWeightDesc(items: seq<Item>): (r: seq<Item>)
    ensures multiset(r) == multiset(items)
  {
    if items == [] then []
    else
      var n := |items| - 1;
      assert items == items[..n] + [items[n]];
      InsertByWeight(SortByWeightDesc(items[..n]), items[n])
  }

  /** `x` comes before `y` in the order first-fit-decreasing processes items. */
  predicate HeavierFirst(x: Item, y: Item) {
    x.weight > y.weight || (x.weight == y.weight && x.index < y.index)
  }

  /** Job `i` of `durations` comes before job `j` in the decreasing order. */
  predicate HeavierAt(durations: seq<real>, i: nat, j: nat) {
    i < |durations| && j < |durations| && HeavierFirst(Item(i, durations[i]), Item(j, durations[j]))
  }

  ghost predicate DescendingStable(s: seq<Item>) {
    forall p, q :: 0 <= p < q < |s| ==> HeavierFirst(s[p], s[q])
  }

  lemma {:induction false} InsertByWeightOrdered(sorted: seq<Item>, x: Item)
    requires DescendingStable(sorted)
    requires forall e :: e in sorted ==> e.index < x.index
    ensures DescendingStable(InsertByWeight(sorted, x))
  {
    if sorted != [] {
      var r := InsertByWeight(sorted, x);
      var head, rest := sorted[0], sorted[1..];
      if head.weight >= x.weight {
        InsertByWeightOrdered(rest, x);
        var tail := InsertByWeight(rest, x);
        forall q | 0 <= q < |tail| ensures HeavierFirst(head, tail[q]) {
          assert tail[q] in multiset(rest) + multiset{x};
          if tail[q] in rest {
            var j :| 0 <= j < |rest| && rest[j] == tail[q];
            assert sorted[j + 1] == tail[q];
          }
        }
        assert r == [head] + tail;
      } else {
        forall q | 0 <= q < |sorted| ensures HeavierFirst(x, sorted[q]) {
          if q > 0 { assert HeavierFirst(sorted[0], sorted[q]); }
        }
      }
    }
  }

  /** Sorting keeps every index below that of a later item. */
  lemma SortedBefore(prefix: seq<Item>, x: Item)
    requires forall m :: 0 <= m < |prefix| ==> prefix[m].index < x.index
    ensures forall e :: e in SortByWeightDesc(prefix) ==> e.index < x.index
  {
    var sorted := SortByWeightDesc(prefix);
    forall e | e in sorted ensures e.index < x.index {
      assert e in multiset(sorted);
      assert e in prefix;
    }
  }

  /**
   * The sorted order is by non-increasing weight, equal weights by ascending
   * original index, when the input lists the indices in ascending order.
   */
  lemma {:induction false} SortOrder(items: seq<Item>)
    requires forall p, q :: 0 <= p < q < |items| ==> items[p].index < items[q].index
    ensures DescendingStable(SortByWeightDesc(items))
  {
    if items != [] {
      var n := |items| - 1;
      var prefix := items[..n];
      assert forall p, q :: 0 <= p < q < n ==> prefix[p].index < prefix[q].index;
      SortOrder(prefix);
      var sorted := SortByWeightDesc(prefix);
      SortedBefore(prefix, items[n]);
      assert items == prefix + [items[n]];
      assert SortByWeightDesc(items) == InsertByWeight(sorted, items[n]);
      InsertByWeightOrdered(sorted, items[n]);
    }
  }

  /** The indices and the weights of an item put in front. */
  lemma ConsItem(a: Item, t: seq<Item>)
    ensures multiset(Indices([a] + t)) == multiset{a.index} + multiset(Indices(t))
    ensures Sum(Weights([a] + t)) == a.weight + Sum(Weights(t))
  {
    assert Indices([a] + t) == [a.index] + Indices(t);
    assert Weights([a] + t) == [a.weight] + Weights(t);
    SumPrepend(a.weight, Weights(t));
  }

  lemma ConsIndices(head: Item, rest: seq<Item>, inserted: seq<Item>, i: nat)
    requires multiset(Indices(inserted)) == multiset(Indices(rest)) + multiset{i}
    ensures multiset(Indices([head] + inserted)) == multiset(Indices([head] + rest)) + multiset{i}
  {
    ConsItem(head, inserted);
    ConsItem(head, rest);
  }

  lemma {:induction false} InsertByWeightIndices(sorted: seq<Item>, x: Item)
    ensures multiset(Indices(InsertByWeight(sorted, x))) == multiset(Indices(sorted)) + multiset{x.index}
  {
    if sorted == [] {
      ConsItem(x, []);
    } else if sorted[0].weight >= x.weight {
      var head, rest := sorted[0], sorted[1..];
      var inserted := InsertByWeight(rest, x);
      InsertByWeightIndices(rest, x);
      assert InsertByWeight(sorted, x) == [head] + inserted;
      assert sorted == [head] + rest;
      ConsIndices(head, rest, inserted, x.index);
    } else {
      ConsItem(x, sorted);
    }
  }

  lemma {:induction false} InsertByWeightTotal(sorted: seq<Item>, x: Item)
    ensures Sum(Weights(InsertByWeight(sorted, x))) == Sum(Weights(sorted)) + x.weight
  {
    if sorted == [] {
      ConsItem(x, []);
    } else if sorted[0].weight >= x.weight {
      InsertByWeightTotal(sorted[1..], x);
      ConsItem(sorted[0], InsertByWeight(sorted[1..], x));
      assert sorted == [sorted[0]] + sorted[1..];
      ConsItem(sorted[0], sorted[1..]);
    } else {
      ConsItem(x, sorted);
    }
  }

  /** The indices and the weights of a non-empty sequence: those before the last item, and the last. */
  lemma SnocItem(items: seq<Item>)
    requires items != []
    ensures multiset(Indices(items)) == multiset(Indices(items[..|items| - 1])) + multiset{items[|items| - 1].index}
    ensures Sum(Weights(items)) == Sum(Weights(items[..|items| - 1])) + items[|items| - 1].weight
  {
    var n := |items| - 1;
    assert Indices(items) == Indices(items[..n]) + [items[n].index];
    assert Weights(items)[..n] == Weights(items[..n]);
  }

  /** Sorting moves items, not indices: the sorted items carry the same indices. */
  lemma {:induction false} SortKeepsIndices(items: seq<Item>)
    ensures multiset(Indices(SortByWeightDesc(items))) == multiset(Indices(items))
  {
    if items != [] {
      var n := |items| - 1;
      SortKeepsIndices(items[..n]);
      InsertByWeightIndices(SortByWeightDesc(items[..n]), items[n]);
      SnocItem(items);
    }
  }

  /** Sorting keeps the total weight. */
  lemma {:induction false} SortKeepsTotal(items: seq<Item>)
    ensures Sum(Weights(SortByWeightDesc(items))) == Sum(Weights(items))
  {
    if items != [] {
      var n := |items| - 1;
      SortKeepsTotal(items[..n]);
      InsertByWeightTotal(SortByWeightDesc(items[..n]), items[n]);
      SnocItem(items);
    }
  }

  // ------------------------------------------------------------ the packers

  /** What `first_fit(durations, capacity)` returns, for a fit tolerance `eps`. */
  function FirstFitPacking(durations: seq<real>, capacity: real, eps: real): Packing {
    Pack(Enumerate(durations), capacity, eps)
  }

  /** What `first_fit_decreasing(durations, capacity)` returns, for a fit tolerance `eps`. */
  function FirstFitDecreasingPacking(durations: seq<real>, capacity: real, eps: real): Packing {
    Pack(SortByWeightDesc(Enumerate(durations)), capacity, eps)
  }

  /** The index set `0 .. n-1` in order. */
  function Range(n: nat): (r: seq<nat>)
    ensures |r| == n && forall k :: 0 <= k < n ==> r[k] == k
  {
    seq(n, k requires 0 <= k < n => k)
  }

  lemma {:induction false} RangeCount(n: nat, i: nat)
    ensures multiset(Range(n))[i] == if i < n then 1 else 0
  {
    if n > 0 {
      RangeCount(n - 1, i);
      assert Range(n) == Range(n - 1) + [n - 1];
    }
  }

  /** Index `i` is exactly once in bin `b` and in no other bin. */
  ghost predicate OnlyIn(bins: seq<seq<nat>>, i: nat, b: nat) {
    b < |bins| && multiset(bins[b])[i] == 1 && forall c :: 0 <= c < |bins| && c != b ==> i !in bins[c]
  }

  /** Index `i` is in exactly one bin, exactly once. */
  ghost predicate InOneBin(bins: seq<seq<nat>>, i: nat) {
    exists b :: OnlyIn(bins, i, b)
  }

  /** Every index `0 .. n-1` is in exactly one bin, exactly once, and no other index is in any bin. */
  ghost predicate PartitionOf(bins: seq<seq<nat>>, n: nat) {
    && (forall b, j :: 0 <= b < |bins| && 0 <= j < |bins[b]| ==> bins[b][j] < n)
    && (forall i: nat :: i < n ==> InOneBin(bins, i))
  }

  lemma {:induction false} PartitionFromCount(bins: seq<seq<nat>>, n: nat)
    requires multiset(Flatten(bins)) == multiset(Range(n))
    ensures PartitionOf(bins, n)
  {
    forall b, j | 0 <= b < |bins| && 0 <= j < |bins[b]| ensures bins[b][j] < n {
      InFlatten(bins, b, j);
      RangeCount(n, bins[b][j]);
    }
    forall i: nat | i < n ensures InOneBin(bins, i) {
      RangeCount(n, i);
      OccursOnceInOneBin(bins, i);
      var b :| 0 <= b < |bins| && multiset(bins[b])[i] == 1
               && forall c :: 0 <= c < |bins| && c != b ==> i !in bins[c];
      assert OnlyIn(bins, i, b);
    }
  }

  lemma {:induction false} EnumerateFacts(durations: seq<real>)
    ensures Consistent(Enumerate(durations), durations)
    ensures Indices(Enumerate(durations)) == Range(|durations|)
    ensures Weights(Enumerate(durations)) == durations
  {}

  lemma {:induction false} SortedEnumerateConsistent(durations: seq<real>)
    ensures Consistent(SortByWeightDesc(Enumerate(durations)), durations)
  {
    var items := Enumerate(durations);
    var sorted := SortByWeightDesc(items);
    forall k | 0 <= k < |sorted| ensures sorted[k].index < |durations| && durations[sorted[k].index] == sorted[k].weight {
      assert sorted[k] in multiset(items);
      var m :| 0 <= m < |items| && items[m] == sorted[k];
    }
  }

  /** First-fit: a partition of the indices, bookkept loads, soft capacity, and increasing indices in every bin. */
  lemma {:induction false} FirstFitProperties(durations: seq<real>, capacity: real, eps: real)
    ensures var p := FirstFitPacking(durations, capacity, eps);
      && PartitionOf(p.bins, |durations|)
      && Bookkept(p, durations, capacity, eps)
      && forall b, k, l :: 0 <= b < |p.bins| && 0 <= k < l < |p.bins[b]| ==> p.bins[b][k] < p.bins[b][l]
  {
    var items := Enumerate(durations);
    EnumerateFacts(durations);
    PackPartition(items, capacity, eps);
    PartitionFromCount(Pack(items, capacity, eps).bins, |durations|);
    PackBookkept(items, durations, capacity, eps);
    BinsFollowOrder(items, capacity, eps, (i: nat, j: nat) => i < j);
  }

  /**
   * First-fit-decreasing: a partition of the indices, bookkept loads, soft
   * capacity, and every bin in the sorted order (heavier first, equal weights
   * by ascending index).
   */
  lemma {:induction false} FirstFitDecreasingProperties(durations: seq<real>, capacity: real, eps: real)
    ensures var p := FirstFitDecreasingPacking(durations, capacity, eps);
      && PartitionOf(p.bins, |durations|)
      && Bookkept(p, durations, capacity, eps)
      && forall b, k, l :: 0 <= b < |p.bins| && 0 <= k < l < |p.bins[b]| ==>
           HeavierAt(durations, p.bins[b][k], p.bins[b][l])
  {
    FirstFitDecreasingPartition(durations, capacity, eps);
    FirstFitDecreasingOrder(durations, capacity, eps);
  }

  lemma {:induction false} FirstFitDecreasingPartition(durations: seq<real>, capacity: real, eps: real)
    ensures var p := FirstFitDecreasingPacking(durations, capacity, eps);
      PartitionOf(p.bins, |durations|) && Bookkept(p, durations, capacity, eps)
  {
    var items := Enumerate(durations);
    var sorted := SortByWeightDesc(items);
    EnumerateFacts(durations);
    SortKeepsIndices(items);
    SortedEnumerateConsistent(durations);
    PackPartition(sorted, capacity, eps);
    PartitionFromCount(Pack(sorted, capacity, eps).bins, |durations|);
    PackBookkept(sorted, durations, capacity, eps);
  }

  /** `HeavierAt` as a function value on indices. */
  function HeavierIndex(durations: seq<real>): (nat, nat) -> bool {
    (i: nat, j: nat) => HeavierAt(durations, i, j)
  }

  lemma {:induction false} FirstFitDecreasingOrder(durations: seq<real>, capacity: real, eps: real)
    ensures var p := FirstFitDecreasingPacking(durations, capacity, eps);
      forall b, k, l :: 0 <= b < |p.bins| && 0 <= k < l < |p.bins[b]| ==>
        HeavierAt(durations, p.bins[b][k], p.bins[b][l])
  {
    var items := Enumerate(durations);
    var sorted := SortByWeightDesc(items);
    EnumerateFacts(durations);
    SortedEnumerateConsistent(durations);
    SortOrder(items);
    var before := HeavierIndex(durations);
    forall p, q | 0 <= p < q < |sorted| ensures before(sorted[p].index, sorted[q].index) {
      assert HeavierFirst(sorted[p], sorted[q]);
    }
    var bins := Pack(sorted, capacity, eps).bins;
    assert FirstFitDecreasingPacking(durations, capacity, eps).bins == bins;
    forall b, k, l | 0 <= b < |bins| && 0 <= k < l < |bins[b]|
      ensures HeavierAt(durations, bins[b][k], bins[b][l])
    {
      BinPairOrdered(sorted, before, capacity, eps, b, k, l);
    }
  }

  /** `BinsFollowOrder` for one pair of positions in one bin. */
  lemma BinPairOrdered(items: seq<Item>, before: (nat, nat) -> bool, capacity: real, eps: real, b: nat, k: nat, l: nat)
    requires forall p, q :: 0 <= p < q < |items| ==> before(items[p].index, items[q].index)
    requires b < |Pack(items, capacity, eps).bins| && k < l < |Pack(items, capacity, eps).bins[b]|
    ensures before(Pack(items, capacity, eps).bins[b][k], Pack(items, capacity, eps).bins[b][l])
  {
    BinsFollowOrder(items, capacity, eps, before);
  }

  /**
   * First-fit uses no fewer than `ceil(sum / (capacity + eps))` bins when no
   * single weight exceeds `capacity`; with `eps == 0` that is `lower_bound`.
   */
  lemma {:induction false} FirstFitMeetsLowerBound(durations: seq<real>, capacity: real, eps: real)
    requires capacity > 0.0 && eps >= 0.0
    requires forall i :: 0 <= i < |durations| ==> durations[i] <= capacity
    ensures |FirstFitPacking(durations, capacity, eps).bins| >= LowerBound(durations, capacity + eps)
    ensures eps == 0.0 ==> |FirstFitPacking(durations, capacity, eps).bins| >= LowerBound(durations, capacity)
  {
    FirstFitCovers(durations, capacity, eps);
    if eps == 0.0 {
      FirstFitCovers(durations, capacity, 0.0);
    }
  }

  lemma {:induction false} FirstFitCovers(durations: seq<real>, capacity: real, eps: real)
    requires capacity > 0.0 && eps >= 0.0
    requires forall i :: 0 <= i < |durations| ==> durations[i] <= capacity
    ensures |FirstFitPacking(durations, capacity, eps).bins| >= LowerBound(durations, capacity + eps)
  {
    var items := Enumerate(durations);
    EnumerateFacts(durations);
    BinsHoldTotal(items, durations, capacity, eps);
    BinsCoverTotal(durations, capacity + eps, |Pack(items, capacity, eps).bins|);
  }

  /** The same bound for first-fit-decreasing. */
  lemma {:induction false} FirstFitDecreasingMeetsLowerBound(durations: seq<real>, capacity: real, eps: real)
    requires capacity > 0.0 && eps >= 0.0
    requires forall i :: 0 <= i < |durations| ==> durations[i] <= capacity
    ensures |FirstFitDecreasingPacking(durations, capacity, eps).bins| >= LowerBound(durations, capacity + eps)
    ensures eps == 0.0 ==> |FirstFitDecreasingPacking(durations, capacity, eps).bins| >= LowerBound(durations, capacity)
  {
    FirstFitDecreasingCovers(durations, capacity, eps);
    if eps == 0.0 {
      FirstFitDecreasingCovers(durations, capacity, 0.0);
    }
  }

  lemma {:induction false} FirstFitDecreasingCovers(durations: seq<real>, capacity: real, eps: real)
    requires capacity > 0.0 && eps >= 0.0
    requires forall i :: 0 <= i < |durations| ==> durations[i] <= capacity
    ensures |FirstFitDecreasingPacking(durations, capacity, eps).bins| >= LowerBound(durations, capacity + eps)
  {
    var sorted := SortByWeightDesc(Enumerate(durations));
    SortedTotal(durations);
    SortedEnumerateConsistent(durations);
    BinsHoldTotal(sorted, durations, capacity, eps);
    BinsCoverTotal(durations, capacity + eps, |Pack(sorted, capacity, eps).bins|);
  }

  /** The sort keeps the total weight of `enumerate(durations)`. */
  lemma SortedTotal(durations: seq<real>)
    ensures Sum(Weights(SortByWeightDesc(Enumerate(durations)))) == Sum(durations)
  {
    EnumerateFacts(durations);
    SortKeepsTotal(Enumerate(durations));
  }

  /** `first_fit`: the insertion loop over the items in input order. */
  method FirstFit(durations: seq<real>, capacity: real) returns (bins: seq<seq<nat>>, loads: seq<real>)
    ensures Packing(bins, loads) == FirstFitPacking(durations, capacity, Tolerance)
    ensures PartitionOf(bins, |durations|)
    ensures Bookkept(Packing(bins, loads), durations, capacity, Tolerance)
    ensures forall b, k, l :: 0 <= b < |bins| && 0 <= k < l < |bins[b]| ==> bins[b][k] < bins[b][l]
    ensures capacity > 0.0 && (forall i :: 0 <= i < |durations| ==> durations[i] <= capacity) ==>
              |bins| >= LowerBound(durations, capacity + Tolerance)
  {
    bins, loads := Insert(Enumerate(durations), capacity, Tolerance);
    FirstFitProperties(durations, capacity, Tolerance);
    if capacity > 0.0 && (forall i :: 0 <= i < |durations| ==> durations[i] <= capacity) {
      FirstFitMeetsLowerBound(durations, capacity, Tolerance);
    }
  }

  /** `first_fit_decreasing`: sort `(index, weight)` pairs by descending weight, then the same loop. */
  method FirstFitDecreasing(durations: seq<real>, capacity: real) returns (bins: seq<seq<nat>>, loads: seq<real>)
    ensures Packing(bins, loads) == FirstFitDecreasingPacking(durations, capacity, Tolerance)
    ensures PartitionOf(bins, |durations|)
    ensures Bookkept(Packing(bins, loads), durations, capacity, Tolerance)
    ensures forall b, k, l :: 0 <= b < |bins| && 0 <= k < l < |bins[b]| ==>
              HeavierAt(durations, bins[b][k], bins[b][l])
    ensures capacity > 0.0 && (forall i :: 0 <= i < |durations| ==> durations[i] <= capacity) ==>
              |bins| >= LowerBound(durations, capacity + Tolerance)
  {
    var indexed := Enumerate(durations);
    indexed := SortByWeightDesc(indexed);
    bins, loads := Insert(indexed, capacity, Tolerance);
    FirstFitDecreasingProperties(durations, capacity, Tolerance);
    if capacity > 0.0 && (forall i :: 0 <= i < |durations| ==> durations[i] <= capacity) {
      FirstFitDecreasingMeetsLowerBound(durations, capacity, Tolerance);
    }
  }

  // ------------------------------------------------------------ worked examples

  /** Packing after one more item is one more step of the loop. */
  lemma PackSnoc(items: seq<Item>, it: Item, capacity: real, eps: real)
    ensures Pack(items + [it], capacity, eps) == Place(Pack(items, capacity, eps), it, capacity, eps)
  {
    assert (items + [it])[..|items|] == items;
  }

  /** An item that fits no bin opens a new one. */
  lemma {:induction false} PlaceOpens(p: Packing, it: Item, capacity: real, eps: real)
    requires |p.bins| == |p.loads|
    requires forall k :: 0 <= k < |p.loads| ==> !Admits(p.loads[k], it.weight, capacity, eps)
    ensures Place(p, it, capacity, eps) == Packing(p.bins + [[it.index]], p.loads + [it.weight])
  {
  }

  /** An item joins bin `b` when that is the first bin that admits it. */
  lemma {:induction false} PlaceJoins(p: Packing, it: Item, capacity: real, eps: real, b: nat)
    requires |p.bins| == |p.loads| && b < |p.loads|
    requires Admits(p.loads[b], it.weight, capacity, eps)
    requires forall k :: 0 <= k < b ==> !Admits(p.loads[k], it.weight, capacity, eps)
    ensures Place(p, it, capacity, eps)
            == Packing(p.bins[b := p.bins[b] + [it.index]], p.loads[b := p.loads[b] + it.weight])
  {
  }

  /** Items already in order of non-increasing weight are left in place by the stable sort. */
  lemma {:induction false} InsertLightest(sorted: seq<Item>, x: Item)
    requires forall e :: e in sorted ==> e.weight >= x.weight
    ensures InsertByWeight(sorted, x) == sorted + [x]
  {
    if sorted != [] {
      InsertLightest(sorted[1..], x);
      assert sorted == [sorted[0]] + sorted[1..];
    }
  }

  /** The stable sort leaves a sequence of non-increasing weight unchanged. */
  lemma {:induction false} SortKeepsSorted(items: seq<Item>)
    requires forall p, q :: 0 <= p < q < |items| ==> items[p].weight >= items[q].weight
    ensures SortByWeightDesc(items) == items
  {
    if items != [] {
      var n := |items| - 1;
      SortKeepsSorted(items[..n]);
      InsertLightest(items[..n], items[n]);
      assert items[..n] + [items[n]] == items;
    }
  }

  /** The four jobs of the worked example, with their positions. */
  function FourJobs(): seq<Item> {
    [Item(0, 60.0), Item(1, 40.0), Item(2, 20.0), Item(3, 20.0)]
  }

  lemma FourJobsFirstTwo()
    ensures Pack(FourJobs()[..2], 60.0, Tolerance) == Packing([[0], [1]], [60.0, 40.0])
  {
    var i0, i1 := Item(0, 60.0), Item(1, 40.0);
    var p1 := Packing([[0]], [60.0]);
    PackSnoc([], i0, 60.0, Tolerance);
    PlaceOpens(Packing([], []), i0, 60.0, Tolerance);
    assert [] + [i0] == [i0];
    PackSnoc([i0], i1, 60.0, Tolerance);
    PlaceOpens(p1, i1, 60.0, Tolerance);
    assert [i0] + [i1] == FourJobs()[..2];
  }

  lemma FourJobsFirstThree()
    ensures Pack(FourJobs()[..3], 60.0, Tolerance) == Packing([[0], [1, 2]], [60.0, 60.0])
  {
    var p2 := Packing([[0], [1]], [60.0, 40.0]);
    var i2 := Item(2, 20.0);
    FourJobsFirstTwo();
    PackSnoc(FourJobs()[..2], i2, 60.0, Tolerance);
    PlaceJoins(p2, i2, 60.0, Tolerance, 1);
    assert p2.bins[1] + [2] == [1, 2];
    assert p2.bins[1 := [1, 2]] == [[0], [1, 2]];
    assert FourJobs()[..2] + [i2] == FourJobs()[..3];
  }

  /** The insertion loop on the four jobs, step by step. */
  lemma FourJobsPacked()
    ensures Pack(FourJobs(), 60.0, Tolerance) == Packing([[0], [1, 2], [3]], [60.0, 60.0, 20.0])
  {
    var p3 := Packing([[0], [1, 2]], [60.0, 60.0]);
    var i3 := Item(3, 20.0);
    FourJobsFirstThree();
    PackSnoc(FourJobs()[..3], i3, 60.0, Tolerance);
    PlaceOpens(p3, i3, 60.0, Tolerance);
    assert FourJobs()[..3] + [i3] == FourJobs();
  }

  /** `lower_bound` of the four jobs on 60-second machines is 3. */
  lemma FourJobsBound()
    ensures LowerBound([60.0, 40.0, 20.0, 20.0], 60.0) == 3
  {
    var ws := [60.0, 40.0, 20.0, 20.0];
    assert [60.0][..0] == [];
    assert Sum([60.0]) == 60.0;
    assert [60.0, 40.0][..1] == [60.0];
    assert Sum([60.0, 40.0]) == 100.0;
    assert [60.0, 40.0, 20.0][..2] == [60.0, 40.0];
    assert Sum([60.0, 40.0, 20.0]) == 120.0;
    assert ws[..3] == [60.0, 40.0, 20.0];
    assert Sum(ws) == 140.0;
  }

  /** Four jobs of 60, 40, 20 and 20 seconds on 60-second machines: three bins, matching the bound. */
  lemma FourJobsExample()
    ensures FirstFitPacking([60.0, 40.0, 20.0, 20.0], 60.0, Tolerance) == Packing([[0], [1, 2], [3]], [60.0, 60.0, 20.0])
    ensures FirstFitDecreasingPacking([60.0, 40.0, 20.0, 20.0], 60.0, Tolerance) == Packing([[0], [1, 2], [3]], [60.0, 60.0, 20.0])
    ensures LowerBound([60.0, 40.0, 20.0, 20.0], 60.0) == 3
  {
    assert Enumerate([60.0, 40.0, 20.0, 20.0]) == FourJobs();
    FourJobsPacked();
    SortKeepsSorted(FourJobs());
    FourJobsBound();
  }

  /**
   * Two jobs of 30.0000000005 seconds share one 60-second machine thanks to
   * the tolerance, while `lower_bound` asks for two: the bound holds for
   * `capacity + 1e-9`, not always for `capacity`.
   */
  lemma ToleranceExample()
    ensures FirstFitPacking([30.0000000005, 30.0000000005], 60.0, Tolerance) == Packing([[0, 1]], [60.000000001])
    ensures LowerBound([30.0000000005, 30.0000000005], 60.0) == 2
  {
    PairShareBin(30.0000000005, 60.0, Tolerance);
    PairSum(30.0000000005);
    assert 60.000000001 / 60.0 > 1.0;
  }

  /** Two equal jobs that fit together share the first bin. */
  lemma PairShareBin(w: real, capacity: real, eps: real)
    requires w + w <= capacity + eps
    ensures FirstFitPacking([w, w], capacity, eps) == Packing([[0, 1]], [w + w])
  {
    var i0, i1 := Item(0, w), Item(1, w);
    assert Enumerate([w, w]) == [i0] + [i1];
    var p1 := Packing([[0]], [w]);
    OneItemPack(i0, capacity, eps);
    PackSnoc([i0], i1, capacity, eps);
    var q := Packing([[0, 1]], [w + w]);
    assert [0] + [1] == [0, 1];
    assert p1.bins[0 := p1.bins[0] + [1]] == q.bins;
    assert p1.loads[0 := p1.loads[0] + w] == q.loads;
    PlaceJoins(p1, i1, capacity, eps, 0);
  }

  /** A single job opens the first bin. */
  lemma OneItemPack(it: Item, capacity: real, eps: real)
    ensures Pack([it], capacity, eps) == Packing([[it.index]], [it.weight])
  {
    PackSnoc([], it, capacity, eps);
    assert [] + [it] == [it];
    PlaceOpens(Packing([], []), it, capacity, eps);
  }

  lemma PairSum(w: real)
    ensures Sum([w, w]) == w + w
  {
    assert [w, w][..1] == [w] && [w][..0] == [];
    assert Sum([]) == 0.0;
    assert Sum([w]) == w;
  }

  /** A job longer than the capacity still gets a bin of its own. */
  lemma OversizedJobExample()
    ensures FirstFitPacking([70.0], 60.0, Tolerance) == Packing([[0]], [70.0])
    ensures FirstFitDecreasingPacking([70.0], 60.0, Tolerance) == Packing([[0]], [70.0])
  {
  }
}
