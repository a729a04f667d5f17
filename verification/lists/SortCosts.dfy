/** How often the merge sort compares: at most n times in a pass over n elements, and in at
    most as many passes as it takes to double 1 up to n. */
module SortCosts {
  import opened MergeSpec
  import opened DivMod

  function MergeCost<T>(cmp: (T, T) -> int, a: seq<T>, b: seq<T>): nat {
    if a == [] || b == [] then 0
    else 1 + if Leq(cmp, a[0], b[0]) then MergeCost(cmp, a[1..], b) else MergeCost(cmp, a, b[1..])
  }

  function PassCost<T>(cmp: (T, T) -> int, k: nat, s: seq<T>): nat
    requires 0 < k
    decreases |s|
  {
    if s == [] then 0
    else
      var mid := Min(k, |s|);
      var end := Min(2 * k, |s|);
      MergeCost(cmp, s[..mid], s[mid..end]) + PassCost(cmp, k, s[end..])
  }

  function PassesCost<T>(cmp: (T, T) -> int, k: nat, s: seq<T>): nat
    requires 0 < k
    decreases |s| - k
  {
    PassCost(cmp, k, s) + if |s| <= 2 * k then 0 else PassesCost(cmp, 2 * k, Pass(cmp, k, s))
  }

  function SortCost<T>(cmp: (T, T) -> int, s: seq<T>): nat {
    PassesCost(cmp, 1, s)
  }

  /** The last element is emitted without a comparison. */
  lemma {:induction false} MergeCostBound<T>(cmp: (T, T) -> int, a: seq<T>, b: seq<T>)
    requires a != [] || b != []
    ensures MergeCost(cmp, a, b) < |a| + |b|
  {
    if a != [] && b != [] {
      if Leq(cmp, a[0], b[0]) {
        MergeCostBound(cmp, a[1..], b);
      } else {
        MergeCostBound(cmp, a, b[1..]);
      }
    }
  }

  lemma {:induction false} PassCostBound<T>(cmp: (T, T) -> int, k: nat, s: seq<T>)
    requires 0 < k
    ensures PassCost(cmp, k, s) <= |s|
    ensures |s| == 1 ==> PassCost(cmp, k, s) == 0
    decreases |s|
  {
    if s != [] {
      var mid, end := Min(k, |s|), Min(2 * k, |s|);
      MergeCostBound(cmp, s[..mid], s[mid..end]);
      PassCostBound(cmp, k, s[end..]);
    }
  }

  lemma {:induction false} PassesCostBound<T>(cmp: (T, T) -> int, k: nat, s: seq<T>, m: nat)
    requires 0 < k && 0 < m && |s| <= k * Pow2(m)
    ensures PassesCost(cmp, k, s) <= |s| * m
    decreases m
  {
    PassCostBound(cmp, k, s);
    if |s| > 2 * k {
      Doubled(k, m);
      PassesCostBound(cmp, 2 * k, Pass(cmp, k, s), m - 1);
      hide Pass, PassCost, Pow2;
      OneMore(|s|, m);
    } else {
      Monotone(|s|, 1, m);
    }
  }

  lemma Doubled(k: nat, m: nat)
    requires 0 < m
    ensures k * Pow2(m) == (2 * k) * Pow2(m - 1)
    ensures m == 1 ==> k * Pow2(m) == 2 * k
  {
    assert m == 1 ==> Pow2(m - 1) == 1;
  }

  lemma OneMore(n: nat, m: nat)
    requires 0 < m
    ensures n + n * (m - 1) == n * m
  {
  }

  /** A list of at most 2^m nodes is sorted with at most m comparisons a node. */
  lemma SortCostBound<T>(cmp: (T, T) -> int, s: seq<T>, m: nat)
    requires |s| <= Pow2(m)
    ensures SortCost(cmp, s) <= |s| * m
  {
    if m == 0 {
      PassCostBound(cmp, 1, s);
    } else {
      PassesCostBound(cmp, 1, s, m);
    }
  }
}
