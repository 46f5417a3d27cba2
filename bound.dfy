/** `lower_bound(durations, capacity)`: the fewest bins the total weight could fit in. */
module Bounds {

  /** Python's `sum(...)`: the left-to-right total. */
  function Sum(s: seq<real>): real {
    if s == [] then 0.0 else Sum(s[..|s| - 1]) + s[|s| - 1]
  }

  /** `math.ceil(x)`: the least integer not below `x`. */
  function Ceiling(x: real): (r: int)
    ensures r as real - 1.0 < x <= r as real
  {
    if x.Floor as real == x then x.Floor else x.Floor + 1
  }

  /** `ceil(sum(durations) / capacity)`: the least bin count whose total capacity covers the total weight. */
  function LowerBound(durations: seq<real>, capacity: real): (r: int)
    requires capacity > 0.0
    ensures (r - 1) as real * capacity < Sum(durations) <= r as real * capacity
  {
    CeilingScaled(Sum(durations), capacity);
    Ceiling(Sum(durations) / capacity)
  }

  lemma {:induction false} CeilingScaled(total: real, capacity: real)
    requires capacity > 0.0
    ensures (Ceiling(total / capacity) - 1) as real * capacity < total
    ensures total <= Ceiling(total / capacity) as real * capacity
  {
    var x := total / capacity;
    var c := Ceiling(x);
    assert x * capacity == total;
    ScaleLess((c - 1) as real, x, capacity);
    assert (c - 1) as real * capacity < total;
    ScaleAtMost(x, c as real, capacity);
    assert total <= c as real * capacity;
  }

  lemma {:induction false} ScaleLess(a: real, b: real, c: real)
    requires a < b && c > 0.0
    ensures a * c < b * c
  {}

  lemma {:induction false} ScaleAtMost(a: real, b: real, c: real)
    requires a <= b && c >= 0.0
    ensures a * c <= b * c
  {}

  lemma {:induction false} CancelScale(a: real, b: real, c: real, t: real)
    requires c > 0.0 && a * c < t <= b * c
    ensures a < b
  {}

  /** The joint capacity of `n` bins of `capacity` each. */
  function JointCapacity(n: nat, capacity: real): real {
    if n == 0 then 0.0 else JointCapacity(n - 1, capacity) + capacity
  }

  lemma {:induction false} JointCapacityIsProduct(n: nat, capacity: real)
    ensures JointCapacity(n, capacity) == n as real * capacity
  {
    if n > 0 {
      JointCapacityIsProduct(n - 1, capacity);
    }
  }

  /** No fewer than `LowerBound` bins of `capacity` can hold the total weight. */
  lemma {:induction false} BinsCoverTotal(durations: seq<real>, capacity: real, n: nat)
    requires capacity > 0.0
    requires Sum(durations) <= JointCapacity(n, capacity)
    ensures n >= LowerBound(durations, capacity)
  {
    var r := LowerBound(durations, capacity);
    JointCapacityIsProduct(n, capacity);
    CancelScale((r - 1) as real, n as real, capacity, Sum(durations));
  }

  /** A sequence whose every element is at most `m` sums to at most `|s|` times `m`. */
  lemma {:induction false} SumAtMost(s: seq<real>, m: real)
    requires forall k :: 0 <= k < |s| ==> s[k] <= m
    ensures Sum(s) <= JointCapacity(|s|, m)
  {
    if s != [] {
      SumAtMost(s[..|s| - 1], m);
    }
  }

  /** Adding `w` to one element adds `w` to the sum. */
  lemma {:induction false} SumUpdate(s: seq<real>, b: nat, w: real)
    requires b < |s|
    ensures Sum(s[b := s[b] + w]) == Sum(s) + w
  {
    var n := |s| - 1;
    var t := s[b := s[b] + w];
    if b < n {
      assert t[..n] == s[..n][b := s[b] + w];
      SumUpdate(s[..n], b, w);
    } else {
      assert t[..n] == s[..n];
    }
  }

  lemma {:induction false} SumPrepend(x: real, s: seq<real>)
    ensures Sum([x] + s) == x + Sum(s)
  {
    if s != [] {
      assert ([x] + s)[..|s|] == [x] + s[..|s| - 1];
      SumPrepend(x, s[..|s| - 1]);
    }
  }
}
