/** Selecting the fewest, heaviest clusters that cover a requested share of the execution. */
module Coverage {
  import opened Sums
  import opened Points
  import opened Options
  import opened Pigeonhole

  // ---------- Orders of clusters ----------

  /** Every index below k occurs exactly once. */
  predicate IsPermutation(order: seq<nat>, k: nat) {
    |order| == k && Distinct(order) && forall i :: 0 <= i < k ==> order[i] < k
  }

  /** Cluster a is listed before cluster b: heavier first, and among equals the larger index first. */
  predicate Heavier(weights: seq<real>, a: nat, b: nat)
    requires a < |weights| && b < |weights|
  {
    weights[a] > weights[b] || (weights[a] == weights[b] && a > b)
  }

  predicate IsHeaviestFirst(weights: seq<real>, order: seq<nat>) {
    && (forall i :: 0 <= i < |order| ==> order[i] < |weights|)
    && (forall i, j :: 0 <= i < j < |order| ==> Heavier(weights, order[i], order[j]))
  }

  /** Sorting (weight, index) pairs in descending order, as the library sort followed by a reversal does. */
  method SortHeaviestFirst(weights: seq<real>) returns (order: seq<nat>)
    ensures IsPermutation(order, |weights|) && IsHeaviestFirst(weights, order)
  {
    order := [];
    for n := 0 to |weights|
      invariant IsPermutation(order, n) && IsHeaviestFirst(weights, order)
    {
      var p := 0;
      while p < n && Heavier(weights, order[p], n)
        invariant 0 <= p <= n
        invariant forall i :: 0 <= i < p ==> Heavier(weights, order[i], n)
      {
        p := p + 1;
      }
      InsertAt(weights, order, n, p);
      order := order[..p] + [n] + order[p..];
    }
  }

  lemma InsertAt(weights: seq<real>, order: seq<nat>, n: nat, p: nat)
    requires n < |weights| && p <= n
    requires IsPermutation(order, n) && IsHeaviestFirst(weights, order)
    requires forall i :: 0 <= i < p ==> Heavier(weights, order[i], n)
    requires p < n ==> !Heavier(weights, order[p], n)
    ensures var r := order[..p] + [n] + order[p..];
      IsPermutation(r, n + 1) && IsHeaviestFirst(weights, r)
  {
    InsertPermutes(order, n, p);
    forall i | p <= i < n
      ensures Heavier(weights, n, order[i])
    {
      HeadIsHeaviest(weights, order, p, i);
    }
    InsertOrders(weights, order, n, p);
  }

  lemma InsertPermutes(order: seq<nat>, n: nat, p: nat)
    requires p <= n && IsPermutation(order, n)
    ensures IsPermutation(order[..p] + [n] + order[p..], n + 1)
  {
    var r := order[..p] + [n] + order[p..];
    assert forall i :: 0 <= i < |r| ==> r[i] == if i < p then order[i] else if i == p then n else order[i - 1];
  }

  lemma InsertOrders(weights: seq<real>, order: seq<nat>, n: nat, p: nat)
    requires n < |weights| && p <= n == |order| && IsHeaviestFirst(weights, order)
    requires forall i :: 0 <= i < p ==> Heavier(weights, order[i], n)
    requires forall i :: p <= i < n ==> Heavier(weights, n, order[i])
    ensures IsHeaviestFirst(weights, order[..p] + [n] + order[p..])
  {
    hide Heavier;
    var r := order[..p] + [n] + order[p..];
    assert forall i :: 0 <= i < |r| ==> r[i] == if i < p then order[i] else if i == p then n else order[i - 1];
  }

  lemma PermutationHits(order: seq<nat>, k: nat, c: nat) returns (i: nat)
    requires IsPermutation(order, k) && c < k
    ensures i < k && order[i] == c
  {
    if c !in order {
      DistinctBelow(order + [c], k);
    }
    i :| 0 <= i < k && order[i] == c;
  }

  /** A sum over clusters can be taken in any order. */
  lemma SumPermuted(order: seq<nat>, k: nat, g: int -> real, h: int -> real)
    requires IsPermutation(order, k) && forall i :: 0 <= i < k ==> h(i) == g(order[i])
    ensures Sum(k, h) == Sum(k, g)
  {
    var f := (i, c) => if 0 <= i < k && order[i] == c then g(c) else 0.0;
    SumExchange(k, k, f);
    forall i | 0 <= i < k
      ensures Sum(k, c => f(i, c)) == h(i)
    {
      SumSingle(k, c => f(i, c), order[i]);
    }
    forall c | 0 <= c < k
      ensures Sum(k, i => f(i, c)) == g(c)
    {
      var i := PermutationHits(order, k, c);
      SumSingle(k, i => f(i, c), i);
    }
    SumCongruence(k, i => Sum(k, c => f(i, c)), h);
    SumCongruence(k, c => Sum(k, i => f(i, c)), g);
  }

  // ---------- Selections ----------

  predicate Selected(mask: seq<bool>, c: int) {
    0 <= c < |mask| && mask[c]
  }

  /** The weight of cluster c if it is selected. */
  function SelectedWeight(weights: seq<real>, mask: seq<bool>, c: int): real {
    if Selected(mask, c) then At(weights, c) else 0.0
  }

  function MaskWeight(weights: seq<real>, mask: seq<bool>): real {
    Sum(|mask|, c => SelectedWeight(weights, mask, c))
  }

  function MaskCount(mask: seq<bool>, n: nat): nat {
    if n == 0 then 0 else MaskCount(mask, n - 1) + if Selected(mask, n - 1) then 1 else 0
  }

  /** The weight of the m heaviest clusters. */
  function TopWeight(weights: seq<real>, order: seq<nat>, m: nat): real {
    Sum(m, i => if 0 <= i < |order| then At(weights, order[i]) else 0.0)
  }

  /** The selection consisting of the first m clusters of the order. */
  function FirstOf(order: seq<nat>, k: nat, m: nat): (mask: seq<bool>)
    requires m <= |order|
    ensures |mask| == k
  {
    seq(k, c => c in order[..m])
  }

  /**
   * The clusters the greedy loop takes: the first m of the order, each of
   * positive weight and taken while coverage was missing, and no more possible.
   */
  ghost predicate GreedyStop(weights: seq<real>, order: seq<nat>, pct: real, m: nat) {
    && m <= |order|
    && (forall i :: 0 <= i < m ==> At(weights, order[i]) > 0.0 && TopWeight(weights, order, i) < pct)
    && (m < |order| ==> TopWeight(weights, order, m) >= pct || At(weights, order[m]) <= 0.0)
  }

  ghost predicate IsGreedySelection(weights: seq<real>, pct: real, mask: seq<bool>) {
    exists order: seq<nat>, m: nat ::
      && IsPermutation(order, |weights|) && IsHeaviestFirst(weights, order)
      && GreedyStop(weights, order, pct, m) && mask == FirstOf(order, |weights|, m)
  }

  lemma TopOfNone(weights: seq<real>, order: seq<nat>)
    ensures TopWeight(weights, order, 0) == 0.0
  {
  }

  lemma FirstOfNext(weights: seq<real>, order: seq<nat>, i: nat)
    requires IsPermutation(order, |weights|) && i < |order|
    ensures TopWeight(weights, order, i + 1) == TopWeight(weights, order, i) + weights[order[i]]
    ensures FirstOf(order, |weights|, i + 1) == FirstOf(order, |weights|, i)[order[i] := true]
  {
    assert order[..i + 1] == order[..i] + [order[i]];
  }

  /** The largest clusters; a share outside [0, 1] is rejected. */
  method GetLargestClusters(pct: real, weights: seq<real>) returns (largest: Option<seq<bool>>)
    ensures largest.None? <==> pct < 0.0 || pct > 1.0
    ensures largest.Some? ==> IsGreedySelection(weights, pct, largest.value)
  {
    if pct < 0.0 || pct > 1.0 {
      return None;
    }
    var order := SortHeaviestFirst(weights);
    var covered := 0.0;
    var mask := seq(|weights|, _ => false);
    assert mask == FirstOf(order, |weights|, 0);
    hide FirstOf, TopWeight, IsHeaviestFirst;
    TopOfNone(weights, order);
    var i := 0;
    while i < |order| && covered < pct && weights[order[i]] > 0.0
      invariant 0 <= i <= |order| && |mask| == |weights|
      invariant covered == TopWeight(weights, order, i)
      invariant forall j :: 0 <= j < i ==> At(weights, order[j]) > 0.0 && TopWeight(weights, order, j) < pct
      invariant mask == FirstOf(order, |weights|, i)
    {
      FirstOfNext(weights, order, i);
      covered := covered + weights[order[i]];
      mask := mask[order[i] := true];
      i := i + 1;
    }
    assert GreedyStop(weights, order, pct, i);
    largest := Some(mask);
  }

  // ---------- What the greedy selection is worth ----------

  lemma FirstOfMembers(order: seq<nat>, k: nat, m: nat, i: nat)
    requires IsPermutation(order, k) && m <= k && i < k
    ensures Selected(FirstOf(order, k, m), order[i]) <==> i < m
  {
    if i < m {
      assert order[..m][i] == order[i];
    }
  }

  lemma FirstOfWeight(weights: seq<real>, order: seq<nat>, m: nat)
    requires IsPermutation(order, |weights|) && m <= |weights|
    ensures MaskWeight(weights, FirstOf(order, |weights|, m)) == TopWeight(weights, order, m)
  {
    var k := |weights|;
    var mask := FirstOf(order, k, m);
    var g := c => SelectedWeight(weights, mask, c);
    var h := i => if 0 <= i < k then g(order[i]) else 0.0;
    var top := i => if 0 <= i < |order| then At(weights, order[i]) else 0.0;
    SumPermuted(order, k, g, h);
    forall i | 0 <= i < k
      ensures h(i) == if i < m then top(i) else 0.0
    {
      FirstOfMembers(order, k, m, i);
    }
    SumTruncate(k, m, h, top);
  }

  /** The selection seen along the order: is the i-th heaviest cluster taken? */
  function Reordered(mask: seq<bool>, order: seq<nat>): (r: seq<bool>)
    ensures |r| == |order|
  {
    seq(|order|, i requires 0 <= i < |order| => Selected(mask, order[i]))
  }

  function One(mask: seq<bool>, c: int): real {
    if Selected(mask, c) then 1.0 else 0.0
  }

  lemma {:induction false} CountAsSum(mask: seq<bool>, n: nat)
    ensures MaskCount(mask, n) as real == Sum(n, c => One(mask, c))
  {
    if n > 0 {
      CountAsSum(mask, n - 1);
    }
  }

  lemma ReorderedCount(mask: seq<bool>, order: seq<nat>, k: nat)
    requires IsPermutation(order, k) && |mask| == k
    ensures MaskCount(Reordered(mask, order), k) == MaskCount(mask, k)
  {
    var r := Reordered(mask, order);
    CountAsSum(mask, k);
    CountAsSum(r, k);
    SumPermuted(order, k, c => One(mask, c), i => One(r, i));
  }

  lemma FirstOfCount(order: seq<nat>, k: nat, m: nat)
    requires IsPermutation(order, k) && m <= k
    ensures MaskCount(FirstOf(order, k, m), k) == m
  {
    var mask := FirstOf(order, k, m);
    var r := Reordered(mask, order);
    ReorderedCount(mask, order, k);
    forall i | 0 <= i < k
      ensures Selected(r, i) <==> i < m
    {
      FirstOfMembers(order, k, m, i);
    }
    CountPrefix(r, k, m);
  }

  lemma {:induction false} CountPrefix(r: seq<bool>, n: nat, m: nat)
    requires forall i :: 0 <= i < n ==> (Selected(r, i) <==> i < m)
    ensures MaskCount(r, n) == if n < m then n else m
  {
    if n > 0 {
      CountPrefix(r, n - 1, m);
    }
  }

  lemma {:induction false} CountAtMost(mask: seq<bool>, n: nat)
    ensures MaskCount(mask, n) <= n
  {
    if n > 0 {
      CountAtMost(mask, n - 1);
    }
  }

  /** Along a descending order, taking s of the first n terms gives no more than the first s terms. */
  lemma {:induction false} TopIsBest(weights: seq<real>, order: seq<nat>, r: seq<bool>, n: nat)
    requires IsHeaviestFirst(weights, order) && n <= |order|
    ensures MaskCount(r, n) <= n
    ensures Sum(n, i => if Selected(r, i) && 0 <= i < |order| then At(weights, order[i]) else 0.0)
         <= TopWeight(weights, order, MaskCount(r, n))
  {
    if n > 0 {
      TopIsBest(weights, order, r, n - 1);
      var s := MaskCount(r, n - 1);
      if Selected(r, n - 1) && s < n - 1 {
        assert Heavier(weights, order[s], order[n - 1]);
      }
    }
  }

  /** No selection of that many clusters weighs more than the heaviest ones. */
  lemma SelectionBelowTop(weights: seq<real>, order: seq<nat>, mask: seq<bool>)
    requires IsPermutation(order, |weights|) && IsHeaviestFirst(weights, order) && |mask| == |weights|
    ensures MaskWeight(weights, mask) <= TopWeight(weights, order, MaskCount(mask, |mask|))
  {
    var k := |weights|;
    var r := Reordered(mask, order);
    var h := i => if Selected(r, i) && 0 <= i < |order| then At(weights, order[i]) else 0.0;
    SumPermuted(order, k, c => SelectedWeight(weights, mask, c), h);
    TopIsBest(weights, order, r, k);
    ReorderedCount(mask, order, k);
  }

  /** No cluster without weight is selected. */
  lemma SelectsOnlyPositive(weights: seq<real>, pct: real, mask: seq<bool>, c: nat)
    requires IsGreedySelection(weights, pct, mask) && Selected(mask, c)
    ensures c < |weights| && weights[c] > 0.0
  {
    var order: seq<nat>, m: nat :|
      && IsPermutation(order, |weights|) && IsHeaviestFirst(weights, order)
      && GreedyStop(weights, order, pct, m) && mask == FirstOf(order, |weights|, m);
    var i :| 0 <= i < m && order[..m][i] == c;
    assert At(weights, order[i]) > 0.0;
  }

  /** A cluster is selected only if every heavier one is, and every one of equal weight with a larger index. */
  lemma HeavierFirst(weights: seq<real>, pct: real, mask: seq<bool>, a: nat, b: nat)
    requires IsGreedySelection(weights, pct, mask) && Selected(mask, a) && a < |weights| && b < |weights|
    requires weights[b] > weights[a] || (weights[b] == weights[a] && b > a)
    ensures Selected(mask, b)
  {
    hide TopWeight;
    var order: seq<nat>, m: nat :|
      && IsPermutation(order, |weights|) && IsHeaviestFirst(weights, order)
      && GreedyStop(weights, order, pct, m) && mask == FirstOf(order, |weights|, m);
    var i := PermutationHits(order, |weights|, a);
    var j := PermutationHits(order, |weights|, b);
    FirstOfMembers(order, |weights|, m, i);
    FirstOfMembers(order, |weights|, m, j);
    assert i < j ==> Heavier(weights, a, b);
  }

  /** No selection that reaches the requested share uses fewer clusters. */
  lemma GreedyIsFewest(weights: seq<real>, pct: real, mask: seq<bool>, rival: seq<bool>)
    requires IsGreedySelection(weights, pct, mask)
    requires |rival| == |weights| && MaskWeight(weights, rival) >= pct
    ensures MaskCount(mask, |mask|) <= MaskCount(rival, |rival|)
  {
    hide TopWeight, MaskWeight;
    var order: seq<nat>, m: nat :|
      && IsPermutation(order, |weights|) && IsHeaviestFirst(weights, order)
      && GreedyStop(weights, order, pct, m) && mask == FirstOf(order, |weights|, m);
    FirstOfCount(order, |weights|, m);
    SelectionBelowTop(weights, order, rival);
    var s := MaskCount(rival, |rival|);
    assert m <= s;
  }

  /** The whole positive weight: all that any selection could collect. */
  function PositiveMask(weights: seq<real>): (mask: seq<bool>)
    ensures |mask| == |weights|
  {
    seq(|weights|, c requires 0 <= c < |weights| => weights[c] > 0.0)
  }

  /** Falling short of the requested share means every cluster with weight was selected. */
  lemma ShortMeansAll(weights: seq<real>, pct: real, mask: seq<bool>)
    requires IsGreedySelection(weights, pct, mask) && MaskWeight(weights, mask) < pct
    ensures mask == PositiveMask(weights)
  {
    hide TopWeight, MaskWeight;
    var order: seq<nat>, m: nat :|
      && IsPermutation(order, |weights|) && IsHeaviestFirst(weights, order)
      && GreedyStop(weights, order, pct, m) && mask == FirstOf(order, |weights|, m);
    FirstOfWeight(weights, order, m);
    forall c: nat | c < |weights|
      ensures mask[c] <==> weights[c] > 0.0
    {
      var i := PermutationHits(order, |weights|, c);
      FirstOfMembers(order, |weights|, m, i);
      if i > m {
        assert Heavier(weights, order[m], order[i]);
      }
    }
  }

  /** The requested share is reached exactly when the positive weights suffice for it. */
  lemma ReachesCoverage(weights: seq<real>, pct: real, mask: seq<bool>)
    requires IsGreedySelection(weights, pct, mask)
    ensures MaskWeight(weights, mask) >= pct <==> MaskWeight(weights, PositiveMask(weights)) >= pct
  {
    if MaskWeight(weights, mask) < pct {
      ShortMeansAll(weights, pct, mask);
    } else {
      var positive := PositiveMask(weights);
      assert |mask| == |weights|;
      forall c | 0 <= c < |mask|
        ensures SelectedWeight(weights, mask, c) <= SelectedWeight(weights, positive, c)
      {
        if Selected(mask, c) {
          SelectsOnlyPositive(weights, pct, mask, c);
        }
      }
      SumMonotone(|mask|, c => SelectedWeight(weights, mask, c), c => SelectedWeight(weights, positive, c));
    }
  }

  /** Two descending orders of the same weights are the same order. */
  lemma {:induction false} OrderUnique(weights: seq<real>, a: seq<nat>, b: seq<nat>, n: nat)
    requires IsPermutation(a, |weights|) && IsPermutation(b, |weights|)
    requires IsHeaviestFirst(weights, a) && IsHeaviestFirst(weights, b) && n <= |weights|
    ensures a[..n] == b[..n]
  {
    if n > 0 {
      OrderUnique(weights, a, b, n - 1);
      var m := n - 1;
      assert forall i :: 0 <= i < m ==> a[i] == a[..m][i] == b[..m][i] == b[i];
      var i := PermutationHits(a, |weights|, b[m]);
      var j := PermutationHits(b, |weights|, a[m]);
      assert i >= m && j >= m;
      HeadIsHeaviest(weights, a, m, i);
      HeadIsHeaviest(weights, b, m, j);
      assert a[m] == b[m];
    }
  }

  lemma HeadIsHeaviest(weights: seq<real>, order: seq<nat>, m: nat, i: nat)
    requires IsHeaviestFirst(weights, order) && m <= i < |order|
    ensures i == m || Heavier(weights, order[m], order[i])
  {
  }

  /** Asking for more coverage only adds clusters. */
  lemma MoreCoverageSelectsMore(weights: seq<real>, pct: real, mask: seq<bool>, more: real, larger: seq<bool>, c: nat)
    requires IsGreedySelection(weights, pct, mask) && IsGreedySelection(weights, more, larger) && pct <= more
    requires Selected(mask, c)
    ensures Selected(larger, c)
  {
    hide TopWeight;
    var a: seq<nat>, m: nat :|
      && IsPermutation(a, |weights|) && IsHeaviestFirst(weights, a)
      && GreedyStop(weights, a, pct, m) && mask == FirstOf(a, |weights|, m);
    var b: seq<nat>, n: nat :|
      && IsPermutation(b, |weights|) && IsHeaviestFirst(weights, b)
      && GreedyStop(weights, b, more, n) && larger == FirstOf(b, |weights|, n);
    OrderUnique(weights, a, b, |weights|);
    assert a == b by {
      assert a[..|weights|] == a && b[..|weights|] == b;
    }
    assert m <= n;
    var i :| 0 <= i < m && a[..m][i] == c;
    assert b[..n][i] == c;
  }
}
