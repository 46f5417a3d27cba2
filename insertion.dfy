/**
 * The first-fit insertion loop shared by `first_fit` and
 * `first_fit_decreasing`: items are taken in the order given; each goes into
 * the lowest-numbered bin whose load plus the item's weight stays within
 * `capacity + eps`, and into a new bin of its own when no bin admits it,
 * however heavy it is.
 */
module GreedyInsertion {
  import opened Bounds

  /** An item as the packers see it: its position in the input and its weight. */
  datatype Item = Item(index: nat, weight: real)

  /** The two parallel lists `bin_packing_loops.py` builds: item indices per bin and load per bin, in creation order. */
  datatype Packing = Packing(bins: seq<seq<nat>>, loads: seq<real>)

  /** The test `loads[b] + w <= capacity + eps`. */
  predicate Admits(load: real, w: real, capacity: real, eps: real) {
    load + w <= capacity + eps
  }

  /** The lowest-numbered bin that admits `w`, or `|loads|` when none does. */
  function FirstAdmitting(loads: seq<real>, w: real, capacity: real, eps: real): (b: nat)
    ensures b <= |loads|
    ensures b < |loads| ==> Admits(loads[b], w, capacity, eps)
    ensures forall k :: 0 <= k < b ==> !Admits(loads[k], w, capacity, eps)
  {
    if loads == [] then 0
    else if Admits(loads[0], w, capacity, eps) then 0
    else 1 + FirstAdmitting(loads[1..], w, capacity, eps)
  }

  /** One step of the insertion loop: the item joins the first bin that admits it, or opens a new one. */
  function Place(p: Packing, it: Item, capacity: real, eps: real): (q: Packing)
    requires |p.bins| == |p.loads|
    ensures |q.bins| == |q.loads|
  {
    var b := FirstAdmitting(p.loads, it.weight, capacity, eps);
    if b < |p.bins| then
      Packing(p.bins[b := p.bins[b] + [it.index]], p.loads[b := p.loads[b] + it.weight])
    else
      Packing(p.bins + [[it.index]], p.loads + [it.weight])
  }

  /**
   * The first-fit choice rule. A new bin is opened exactly when no existing
   * bin admits the item, and then holds only that item; otherwise the item
   * joins a bin that admits it, every earlier bin having failed the test, and
   * nothing else changes.
   */
  lemma {:induction false} PlaceIsFirstFit(p: Packing, it: Item, capacity: real, eps: real)
    requires |p.bins| == |p.loads|
    ensures var q := Place(p, it, capacity, eps);
      && (|q.bins| == |p.bins| + 1 <==> forall k :: 0 <= k < |p.loads| ==> !Admits(p.loads[k], it.weight, capacity, eps))
      && (|q.bins| == |p.bins| + 1 ==> q.bins == p.bins + [[it.index]] && q.loads == p.loads + [it.weight])
      && (|q.bins| != |p.bins| + 1 ==>
           exists b :: 0 <= b < |p.bins|
             && Admits(p.loads[b], it.weight, capacity, eps)
             && (forall k :: 0 <= k < b ==> !Admits(p.loads[k], it.weight, capacity, eps))
             && q.bins == p.bins[b := p.bins[b] + [it.index]]
             && q.loads == p.loads[b := p.loads[b] + it.weight])
  {
    var b := FirstAdmitting(p.loads, it.weight, capacity, eps);
    var q := Place(p, it, capacity, eps);
    if b < |p.bins| {
      assert q == Packing(p.bins[b := p.bins[b] + [it.index]], p.loads[b := p.loads[b] + it.weight]);
      assert |q.bins| == |p.bins|;
      assert Admits(p.loads[b], it.weight, capacity, eps);
    } else {
      assert q == Packing(p.bins + [[it.index]], p.loads + [it.weight]);
      assert |q.bins| == |p.bins| + 1;
    }
  }

  /** The packing the insertion loop has built after the items of `items`, taken in order. */
  function Pack(items: seq<Item>, capacity: real, eps: real): (p: Packing)
    ensures |p.bins| == |p.loads| <= |items|
  {
    if items == [] then Packing([], [])
    else Place(Pack(items[..|items| - 1], capacity, eps), items[|items| - 1], capacity, eps)
  }

  /**
   * The insertion loop itself, with `bin_packing_loops.py`'s `placed` flag and `break`:
   * `bins[b].append(i)` and `loads[b] += w` on the first bin that admits the
   * item, `bins.append([i])` and `loads.append(w)` when none does.
   */
  method Insert(items: seq<Item>, capacity: real, eps: real) returns (bins: seq<seq<nat>>, loads: seq<real>)
    ensures Packing(bins, loads) == Pack(items, capacity, eps)
  {
    bins, loads := [], [];
    for k := 0 to |items|
      invariant Packing(bins, loads) == Pack(items[..k], capacity, eps)
    {
      var it := items[k];
      ghost var before := Packing(bins, loads);
      var placed := false;
      for b := 0 to |bins|
        invariant !placed
        invariant Packing(bins, loads) == before
        invariant forall j :: 0 <= j < b ==> !Admits(loads[j], it.weight, capacity, eps)
      {
        if loads[b] + it.weight <= capacity + eps {
          assert FirstAdmitting(loads, it.weight, capacity, eps) == b;
          bins := bins[b := bins[b] + [it.index]];
          loads := loads[b := loads[b] + it.weight];
          placed := true;
          break;
        }
      }
      if !placed {
        assert FirstAdmitting(loads, it.weight, capacity, eps) == |loads|;
        bins := bins + [[it.index]];
        loads := loads + [it.weight];
      }
      assert Packing(bins, loads) == Place(before, it, capacity, eps);
      assert items[..k + 1][..k] == items[..k];
    }
    assert items[..|items|] == items;
  }

  // ------------------------------------------------------------ partition

  /** All item indices of all bins, bin after bin. */
  function Flatten(bins: seq<seq<nat>>): seq<nat> {
    if bins == [] then [] else Flatten(bins[..|bins| - 1]) + bins[|bins| - 1]
  }

  /** The item indices in processing order. */
  function Indices(items: seq<Item>): (r: seq<nat>)
    ensures |r| == |items|
    ensures forall k :: 0 <= k < |items| ==> r[k] == items[k].index
  {
    seq(|items|, k requires 0 <= k < |items| => items[k].index)
  }

  lemma {:induction false} FlattenAppend(bins: seq<seq<nat>>, bin: seq<nat>)
    ensures Flatten(bins + [bin]) == Flatten(bins) + bin
  {
    assert (bins + [bin])[..|bins|] == bins;
  }

  lemma {:induction false} FlattenUpdate(bins: seq<seq<nat>>, b: nat, i: nat)
    requires b < |bins|
    ensures multiset(Flatten(bins[b := bins[b] + [i]])) == multiset(Flatten(bins)) + multiset{i}
  {
    var before, bin, after := bins[..b], bins[b], bins[b + 1..];
    assert bins == before + [bin] + after;
    assert bins[b := bin + [i]] == before + [bin + [i]] + after;
    FlattenAround(before, bin, after);
    FlattenAround(before, bin + [i], after);
    var x, y := Flatten(before), Flatten(after);
    assert multiset(x + (bin + [i]) + y) == multiset(x + bin + y) + multiset{i};
  }

  /** Flattening around one bin. */
  lemma {:induction false} FlattenAround(before: seq<seq<nat>>, bin: seq<nat>, after: seq<seq<nat>>)
    ensures Flatten(before + [bin] + after) == Flatten(before) + bin + Flatten(after)
  {
    FlattenConcat(before + [bin], after);
    FlattenAppend(before, bin);
  }

  lemma {:induction false} FlattenConcat(x: seq<seq<nat>>, y: seq<seq<nat>>)
    ensures Flatten(x + y) == Flatten(x) + Flatten(y)
  {
    if y == [] {
      assert x + y == x;
    } else {
      var m := |y| - 1;
      assert (x + y)[..|x + y| - 1] == x + y[..m];
      assert (x + y)[|x + y| - 1] == y[m];
      FlattenConcat(x, y[..m]);
    }
  }

  /** Every index an item brought in is in exactly one bin, once, and nothing else is. */
  lemma {:induction false} PackPartition(items: seq<Item>, capacity: real, eps: real)
    ensures multiset(Flatten(Pack(items, capacity, eps).bins)) == multiset(Indices(items))
  {
    if items != [] {
      var n := |items| - 1;
      var it := items[n];
      PackPartition(items[..n], capacity, eps);
      var p := Pack(items[..n], capacity, eps);
      assert Indices(items) == Indices(items[..n]) + [it.index];
      var q := Pack(items, capacity, eps);
      assert q == Place(p, it, capacity, eps);
      var b := FirstAdmitting(p.loads, it.weight, capacity, eps);
      if b < |p.bins| {
        assert q.bins == p.bins[b := p.bins[b] + [it.index]];
        FlattenUpdate(p.bins, b, it.index);
      } else {
        assert q.bins == p.bins + [[it.index]];
        FlattenAppend(p.bins, [it.index]);
      }
    }
  }

  lemma {:induction false} InFlatten(bins: seq<seq<nat>>, b: nat, j: nat)
    requires b < |bins| && j < |bins[b]|
    ensures bins[b][j] in Flatten(bins)
  {
    var n := |bins| - 1;
    if b < n {
      InFlatten(bins[..n], b, j);
    } else {
      assert Flatten(bins)[|Flatten(bins[..n])| + j] == bins[b][j];
    }
  }

  /** An index held by some bin has exactly one bin holding it, and that bin holds it once, when it occurs once overall. */
  lemma {:induction false} OccursOnceInOneBin(bins: seq<seq<nat>>, i: nat)
    requires multiset(Flatten(bins))[i] == 1
    ensures exists b :: 0 <= b < |bins| && multiset(bins[b])[i] == 1
                        && forall c :: 0 <= c < |bins| && c != b ==> i !in bins[c]
  {
    var n := |bins| - 1;
    var front := bins[..n];
    FlattenLast(bins);
    if multiset(bins[n])[i] == 1 {
      OccursNowhere(front, i);
      forall c | 0 <= c < |bins| && c != n
        ensures i !in bins[c]
      {
        assert bins[c] == front[c];
      }
    } else {
      OccursOnceInOneBin(front, i);
      var b :| 0 <= b < n && multiset(front[b])[i] == 1
               && forall c :: 0 <= c < n && c != b ==> i !in front[c];
      assert bins[b] == front[b];
      forall c | 0 <= c < |bins| && c != b
        ensures i !in bins[c]
      {
        if c < n {
          assert bins[c] == front[c];
        }
      }
    }
  }

  lemma {:induction false} FlattenLast(bins: seq<seq<nat>>)
    requires bins != []
    ensures multiset(Flatten(bins)) == multiset(Flatten(bins[..|bins| - 1])) + multiset(bins[|bins| - 1])
  {
  }

  lemma {:induction false} OccursNowhere(bins: seq<seq<nat>>, i: nat)
    requires multiset(Flatten(bins))[i] == 0
    ensures forall c :: 0 <= c < |bins| ==> i !in bins[c]
  {
    if bins != [] {
      var n := |bins| - 1;
      FlattenLast(bins);
      OccursNowhere(bins[..n], i);
      assert forall c :: 0 <= c < n ==> bins[c] == bins[..n][c];
    }
  }

  // ------------------------------------------------------------ bookkeeping

  /** Every item's weight is `ws[index]`, as when the items come from `enumerate(ws)`. */
  ghost predicate Consistent(items: seq<Item>, ws: seq<real>) {
    forall k :: 0 <= k < |items| ==> items[k].index < |ws| && ws[items[k].index] == items[k].weight
  }

  /** The sum of `ws[i]` over the indices `i` of a bin. */
  function BinLoad(ws: seq<real>, bin: seq<nat>): real
    requires forall j :: 0 <= j < |bin| ==> bin[j] < |ws|
  {
    if bin == [] then 0.0 else BinLoad(ws, bin[..|bin| - 1]) + ws[bin[|bin| - 1]]
  }

  /**
   * The invariant of the two lists: as many loads as bins, no bin empty,
   * each load the sum of its items' weights, and every bin of two or more
   * items within `capacity + eps`.
   */
  ghost predicate Bookkept(p: Packing, ws: seq<real>, capacity: real, eps: real) {
    && |p.bins| == |p.loads|
    && forall b :: 0 <= b < |p.bins| ==> BinKept(p.bins[b], p.loads[b], ws, capacity, eps)
  }

  /** One bin of `Bookkept`: not empty, indices within `ws`, its load the sum of its weights, shared bins within bounds. */
  ghost predicate BinKept(bin: seq<nat>, load: real, ws: seq<real>, capacity: real, eps: real) {
    && bin != []
    && (forall j :: 0 <= j < |bin| ==> bin[j] < |ws|)
    && load == BinLoad(ws, bin)
    && (|bin| >= 2 ==> load <= capacity + eps)
  }

  lemma {:induction false} PlaceBookkept(p: Packing, it: Item, ws: seq<real>, capacity: real, eps: real)
    requires Bookkept(p, ws, capacity, eps)
    requires it.index < |ws| && ws[it.index] == it.weight
    ensures Bookkept(Place(p, it, capacity, eps), ws, capacity, eps)
  {
    var b := FirstAdmitting(p.loads, it.weight, capacity, eps);
    var q := Place(p, it, capacity, eps);
    if b < |p.bins| {
      var bin := p.bins[b] + [it.index];
      assert bin[..|bin| - 1] == p.bins[b];
      assert BinLoad(ws, bin) == p.loads[b] + it.weight;
      assert BinKept(bin, p.loads[b] + it.weight, ws, capacity, eps);
      assert q == Packing(p.bins[b := bin], p.loads[b := p.loads[b] + it.weight]);
      forall c | 0 <= c < |q.bins|
        ensures BinKept(q.bins[c], q.loads[c], ws, capacity, eps)
      {
        if c != b {
          assert q.bins[c] == p.bins[c] && q.loads[c] == p.loads[c];
        }
      }
    } else {
      assert [it.index][..0] == [];
      assert BinLoad(ws, [it.index]) == it.weight;
      assert BinKept([it.index], it.weight, ws, capacity, eps);
      assert q == Packing(p.bins + [[it.index]], p.loads + [it.weight]);
      forall c | 0 <= c < |q.bins|
        ensures BinKept(q.bins[c], q.loads[c], ws, capacity, eps)
      {
        if c < |p.bins| {
          assert q.bins[c] == p.bins[c] && q.loads[c] == p.loads[c];
        }
      }
    }
  }

  /** The insertion loop keeps the bookkeeping invariant, from the empty lists on. */
  lemma {:induction false} PackBookkept(items: seq<Item>, ws: seq<real>, capacity: real, eps: real)
    requires Consistent(items, ws)
    ensures Bookkept(Pack(items, capacity, eps), ws, capacity, eps)
  {
    if items != [] {
      var n := |items| - 1;
      assert Consistent(items[..n], ws) by {
        forall k | 0 <= k < n ensures items[..n][k] == items[k] {}
      }
      PackBookkept(items[..n], ws, capacity, eps);
      PlaceBookkept(Pack(items[..n], capacity, eps), items[n], ws, capacity, eps);
    }
  }

  /**
   * A bin's load exceeds `capacity + eps` only when the bin holds a single
   * item, too heavy on its own, and that load is the item's weight.
   */
  lemma {:induction false} OverfullBinsAreSingletons(items: seq<Item>, ws: seq<real>, capacity: real, eps: real)
    requires Consistent(items, ws)
    ensures var p := Pack(items, capacity, eps);
      forall b :: 0 <= b < |p.bins| && p.loads[b] > capacity + eps ==>
        |p.bins[b]| == 1 && p.bins[b][0] < |ws| && p.loads[b] == ws[p.bins[b][0]]
  {
    var p := Pack(items, capacity, eps);
    PackBookkept(items, ws, capacity, eps);
    forall b | 0 <= b < |p.bins| && p.loads[b] > capacity + eps
      ensures |p.bins[b]| == 1 && p.bins[b][0] < |ws| && p.loads[b] == ws[p.bins[b][0]]
    {
      assert p.bins[b] != [] && p.loads[b] == BinLoad(ws, p.bins[b]);
      assert |p.bins[b]| < 2;
      assert p.bins[b][..0] == [];
    }
  }

  /** The weights in processing order. */
  function Weights(items: seq<Item>): (r: seq<real>)
    ensures |r| == |items|
    ensures forall k :: 0 <= k < |items| ==> r[k] == items[k].weight
  {
    seq(|items|, k requires 0 <= k < |items| => items[k].weight)
  }

  /** The loads add up to the total weight of the items. */
  lemma {:induction false} PackTotal(items: seq<Item>, capacity: real, eps: real)
    ensures Sum(Pack(items, capacity, eps).loads) == Sum(Weights(items))
  {
    if items != [] {
      var n := |items| - 1;
      PackTotal(items[..n], capacity, eps);
      WeightsLast(items);
      PlaceTotal(Pack(items[..n], capacity, eps), items[n], capacity, eps);
    }
  }

  lemma {:induction false} WeightsLast(items: seq<Item>)
    requires items != []
    ensures Sum(Weights(items)) == Sum(Weights(items[..|items| - 1])) + items[|items| - 1].weight
  {
    var ws := Weights(items);
    assert ws[..|items| - 1] == Weights(items[..|items| - 1]);
  }

  /** One placement adds the item's weight to the sum of the loads. */
  lemma {:induction false} PlaceTotal(p: Packing, it: Item, capacity: real, eps: real)
    requires |p.bins| == |p.loads|
    ensures Sum(Place(p, it, capacity, eps).loads) == Sum(p.loads) + it.weight
  {
    var b := FirstAdmitting(p.loads, it.weight, capacity, eps);
    if b < |p.bins| {
      SumUpdate(p.loads, b, it.weight);
    } else {
      assert (p.loads + [it.weight])[..|p.loads|] == p.loads;
    }
  }

  /** When no single weight exceeds `capacity` (and `eps >= 0`), every bookkept bin is within `capacity + eps`. */
  lemma {:induction false} BookkeptWithin(p: Packing, ws: seq<real>, capacity: real, eps: real)
    requires Bookkept(p, ws, capacity, eps) && eps >= 0.0
    requires forall i :: 0 <= i < |ws| ==> ws[i] <= capacity
    ensures forall b :: 0 <= b < |p.loads| ==> p.loads[b] <= capacity + eps
    ensures Sum(p.loads) <= JointCapacity(|p.bins|, capacity + eps)
  {
    forall b | 0 <= b < |p.loads| ensures p.loads[b] <= capacity + eps {
      assert p.bins[b] != [] && p.loads[b] == BinLoad(ws, p.bins[b]);
      if |p.bins[b]| == 1 {
        assert p.bins[b][..0] == [];
        assert p.loads[b] == ws[p.bins[b][0]];
      }
    }
    SumAtMost(p.loads, capacity + eps);
  }

  /** Under the same conditions the bins' joint capacity covers the total weight of the items. */
  lemma {:induction false} BinsHoldTotal(items: seq<Item>, ws: seq<real>, capacity: real, eps: real)
    requires Consistent(items, ws) && eps >= 0.0
    requires forall i :: 0 <= i < |ws| ==> ws[i] <= capacity
    ensures Sum(Weights(items)) <= JointCapacity(|Pack(items, capacity, eps).bins|, capacity + eps)
  {
    var p := Pack(items, capacity, eps);
    PackBookkept(items, ws, capacity, eps);
    BookkeptWithin(p, ws, capacity, eps);
    PackTotal(items, capacity, eps);
  }

  // ------------------------------------------------------------ history

  /** Later items only append bins or extend existing ones: no bin is removed, reordered or shrunk. */
  lemma {:induction false} PackOnlyGrows(items: seq<Item>, k: nat, capacity: real, eps: real)
    requires k <= |items|
    ensures var early, late := Pack(items[..k], capacity, eps), Pack(items, capacity, eps);
      |early.bins| <= |late.bins|
      && forall b :: 0 <= b < |early.bins| ==> early.bins[b] <= late.bins[b]
  {
    if k < |items| {
      var n := |items| - 1;
      assert items[..n][..k] == items[..k];
      PackOnlyGrows(items[..n], k, capacity, eps);
      PlaceOnlyGrows(Pack(items[..n], capacity, eps), items[n], capacity, eps);
    } else {
      assert items[..k] == items;
    }
  }

  /** One placement keeps every bin as a prefix of its new contents. */
  lemma {:induction false} PlaceOnlyGrows(p: Packing, it: Item, capacity: real, eps: real)
    requires |p.bins| == |p.loads|
    ensures var q := Place(p, it, capacity, eps);
      |p.bins| <= |q.bins| && forall b :: 0 <= b < |p.bins| ==> p.bins[b] <= q.bins[b]
  {
    var b := FirstAdmitting(p.loads, it.weight, capacity, eps);
    if b < |p.bins| {
      assert p.bins[b] <= p.bins[b] + [it.index];
    }
  }

  /** Every index in a bin is the index of one of the items. */
  lemma {:induction false} BinMemberIsItem(items: seq<Item>, capacity: real, eps: real, b: nat, k: nat)
    requires b < |Pack(items, capacity, eps).bins| && k < |Pack(items, capacity, eps).bins[b]|
    ensures exists m :: 0 <= m < |items| && items[m].index == Pack(items, capacity, eps).bins[b][k]
  {
    var bins := Pack(items, capacity, eps).bins;
    PackPartition(items, capacity, eps);
    InFlatten(bins, b, k);
    assert bins[b][k] in multiset(Indices(items));
    var m :| 0 <= m < |items| && Indices(items)[m] == bins[b][k];
  }

  /**
   * Each bin lists its items in processing order: if every earlier item is
   * `before` every later one, the indices inside each bin are ordered by `before`.
   */
  lemma {:induction false} BinsFollowOrder(items: seq<Item>, capacity: real, eps: real, before: (nat, nat) -> bool)
    requires forall p, q :: 0 <= p < q < |items| ==> before(items[p].index, items[q].index)
    ensures var bins := Pack(items, capacity, eps).bins;
      forall b, k, l :: 0 <= b < |bins| && 0 <= k < l < |bins[b]| ==> before(bins[b][k], bins[b][l])
  {
    if items != [] {
      var n := |items| - 1;
      var it := items[n];
      var prefix := items[..n];
      var p := Pack(prefix, capacity, eps);
      var q := Pack(items, capacity, eps);
      assert q == Place(p, it, capacity, eps);
      assert forall u, v :: 0 <= u < v < |prefix| ==> prefix[u] == items[u] && prefix[v] == items[v];
      BinsFollowOrder(prefix, capacity, eps, before);
      var b := FirstAdmitting(p.loads, it.weight, capacity, eps);
      if b < |p.bins| {
        forall k | 0 <= k < |p.bins[b]|
          ensures before(p.bins[b][k], it.index)
        {
          BinMemberIsItem(prefix, capacity, eps, b, k);
          var m :| 0 <= m < n && prefix[m].index == p.bins[b][k];
          assert prefix[m] == items[m];
        }
        var bin := p.bins[b] + [it.index];
        assert q.bins == p.bins[b := bin];
        forall c, k, l | 0 <= c < |q.bins| && 0 <= k < l < |q.bins[c]|
          ensures before(q.bins[c][k], q.bins[c][l])
        {
          if c != b {
            assert q.bins[c] == p.bins[c];
          } else if l < |p.bins[b]| {
            assert bin[k] == p.bins[b][k] && bin[l] == p.bins[b][l];
          } else {
            assert bin[k] == p.bins[b][k] && bin[l] == it.index;
          }
        }
      } else {
        assert q.bins == p.bins + [[it.index]];
        forall c, k, l | 0 <= c < |q.bins| && 0 <= k < l < |q.bins[c]|
          ensures before(q.bins[c][k], q.bins[c][l])
        {
          assert c < |p.bins|;
          assert q.bins[c] == p.bins[c];
        }
      }
    }
  }
}
