/** Drawing a random sample of the intervals, each with probability proportional to its weight. */
module Sampling {
  import opened Sums
  import opened Points
  import opened Coverage
  import opened SimpointFiles

  /** Cumulative weights: non-decreasing up to the last entry, which is forced to one. */
  predicate Cumulative(cum: seq<real>) {
    && |cum| > 0 && cum[|cum| - 1] == 1.0
    && forall i, j :: 0 <= i <= j < |cum| - 1 ==> cum[i] <= cum[j]
  }

  /** Does the slot s of the cumulative weights hold r? */
  predicate Holds(cum: seq<real>, r: real, s: int) {
    0 <= s < |cum| && (s > 0 ==> cum[s - 1] <= r) && r <= cum[s]
  }

  /** The slot search, whose lower end moves to the middle itself and not past it. */
  method FindSample(cum: seq<real>, r: real) returns (sample: nat)
    requires Cumulative(cum) && r < 1.0
    ensures Holds(cum, r, sample)
  {
    var lower, upper := 0, |cum|;
    sample := (upper + lower) / 2;
    while true
      invariant 0 <= lower < upper <= |cum|
      invariant sample == (upper + lower) / 2
      invariant lower > 0 ==> cum[lower - 1] <= r
      invariant cum[upper - 1] > r
      decreases upper - lower
    {
      var below := if sample > 0 then cum[sample - 1] <= r else true;
      var above := if sample < |cum| then cum[sample] >= r else true;
      if above && below {
        break;
      }
      if below {
        lower := sample;
      }
      if above {
        upper := sample;
      }
      sample := (upper + lower) / 2;
    }
  }

  /** Strictly inside a slot, that slot is the only one the search can find. */
  lemma SlotUnique(cum: seq<real>, r: real, s: int, t: int)
    requires Cumulative(cum) && r < 1.0 && Holds(cum, r, t)
    requires 0 <= s < |cum| && (s > 0 ==> cum[s - 1] < r) && r < cum[s]
    ensures t == s
  {
  }

  /** Entry i is the weight of the i + 1 heaviest intervals, except that the last entry is one. */
  ghost predicate CumulativeOf(cum: seq<real>, weights: seq<real>, order: seq<nat>) {
    && |cum| == |order| == |weights| > 0 && cum[|cum| - 1] == 1.0
    && forall i :: 0 <= i < |cum| - 1 ==> cum[i] == TopWeight(weights, order, i + 1)
  }

  method CumulativeWeights(weights: seq<real>) returns (cum: seq<real>, order: seq<nat>)
    requires |weights| > 0
    ensures IsPermutation(order, |weights|) && IsHeaviestFirst(weights, order)
    ensures CumulativeOf(cum, weights, order)
  {
    order := SortHeaviestFirst(weights);
    hide IsHeaviestFirst, TopWeight;
    cum := [weights[order[0]]];
    FirstOfNext(weights, order, 0);
    TopOfNone(weights, order);
    for i := 1 to |weights|
      invariant |cum| == i
      invariant forall j :: 0 <= j < i ==> cum[j] == TopWeight(weights, order, j + 1)
    {
      FirstOfNext(weights, order, i);
      cum := cum + [weights[order[i]] + cum[i - 1]];
    }
    cum := cum[|weights| - 1 := 1.0];
  }

  /** Non-negative weights, whatever they sum to, give a table the search terminates on. */
  lemma CumulativeIsSearchable(cum: seq<real>, weights: seq<real>, order: seq<nat>)
    requires NonNegative(weights) && IsPermutation(order, |weights|) && CumulativeOf(cum, weights, order)
    ensures Cumulative(cum)
  {
    hide TopWeight;
    forall i, j | 0 <= i <= j < |cum| - 1
      ensures cum[i] <= cum[j]
    {
      TopWeightMonotone(weights, order, i + 1, j + 1);
    }
  }

  lemma {:induction false} TopWeightMonotone(weights: seq<real>, order: seq<nat>, i: nat, j: nat)
    requires NonNegative(weights) && IsPermutation(order, |weights|) && i <= j <= |order|
    ensures TopWeight(weights, order, i) <= TopWeight(weights, order, j)
    decreases j
  {
    if i < j {
      TopWeightMonotone(weights, order, i, j - 1);
      FirstOfNext(weights, order, j - 1);
    }
  }

  /** Every slot but the last is as wide as its interval is heavy, and so is the last if the weights sum to one. */
  lemma SlotWidth(cum: seq<real>, weights: seq<real>, order: seq<nat>, s: nat)
    requires IsPermutation(order, |weights|) && CumulativeOf(cum, weights, order) && s < |cum|
    requires s == |cum| - 1 ==> TotalWeight(weights) == 1.0
    ensures weights[order[s]] == cum[s] - if s == 0 then 0.0 else cum[s - 1]
  {
    hide TopWeight, MaskWeight, TotalWeight;
    FirstOfNext(weights, order, s);
    TopOfNone(weights, order);
    if s == |cum| - 1 {
      TopOfAll(weights, order);
    }
  }

  lemma TopOfAll(weights: seq<real>, order: seq<nat>)
    requires IsPermutation(order, |weights|)
    ensures TopWeight(weights, order, |weights|) == TotalWeight(weights)
  {
    SumPermuted(order, |weights|, c => At(weights, c), i => if 0 <= i < |order| then At(weights, order[i]) else 0.0);
  }

  /** The interval a draw selects. */
  ghost predicate Selects(cum: seq<real>, order: seq<nat>, r: real, i: nat) {
    exists s :: Holds(cum, r, s) && s < |order| && order[s] == i
  }

  /** hits[d] is the interval draw d selects, and the intervals taken are those hit. */
  ghost predicate TakenByDraws(taken: seq<bool>, cum: seq<real>, order: seq<nat>, draws: seq<real>, hits: seq<nat>) {
    && |hits| <= |draws|
    && (forall d :: 0 <= d < |hits| ==> Selects(cum, order, draws[d], hits[d]))
    && (forall d :: 0 <= d < |hits| ==> Selected(taken, hits[d]))
    && (forall i :: 0 <= i < |taken| && taken[i] ==> i in hits)
  }

  lemma TakenNext(taken: seq<bool>, cum: seq<real>, order: seq<nat>, draws: seq<real>, hits: seq<nat>, s: nat)
    requires TakenByDraws(taken, cum, order, draws, hits) && |hits| < |draws|
    requires Holds(cum, draws[|hits|], s) && s < |order| && order[s] < |taken|
    ensures TakenByDraws(taken[order[s] := true], cum, order, draws, hits + [order[s]])
  {
    assert Selects(cum, order, draws[|hits|], order[s]);
    hide Selects;
  }

  lemma MaskSet(weights: seq<real>, mask: seq<bool>, i: nat)
    requires |mask| == |weights| && i < |mask| && !mask[i]
    ensures MaskWeight(weights, mask[i := true]) == MaskWeight(weights, mask) + weights[i]
    ensures MaskCount(mask[i := true], |mask|) == MaskCount(mask, |mask|) + 1
  {
    var after := mask[i := true];
    var one := c => if c == i then weights[i] else 0.0;
    SumSingle(|mask|, one, i);
    SumAdd(|mask|, c => SelectedWeight(weights, mask, c), one, c => SelectedWeight(weights, after, c));
    CountSet(mask, i, |mask|);
  }

  lemma {:induction false} CountSet(mask: seq<bool>, i: nat, n: nat)
    requires i < |mask| && !mask[i] && n <= |mask|
    ensures MaskCount(mask[i := true], n) == MaskCount(mask, n) + if i < n then 1 else 0
  {
    if n > 0 {
      CountSet(mask, i, n - 1);
    }
  }

  lemma NothingTaken(weights: seq<real>)
    ensures MaskWeight(weights, seq(|weights|, _ => false)) == 0.0
    ensures MaskCount(seq(|weights|, _ => false), |weights|) == 0
  {
    var none := seq(|weights|, _ => false);
    SumZero(|weights|, c => SelectedWeight(weights, none, c));
    CountPrefix(none, |weights|, 0);
  }

  /**
   * Takes intervals until `size` different ones are selected or the draws run
   * out; `share` is the weight taken and `hits` the interval each draw selected.
   */
  method SampleIntervals(weights: seq<real>, cum: seq<real>, order: seq<nat>, size: nat, draws: seq<real>)
    returns (taken: seq<bool>, share: real, hits: seq<nat>)
    requires IsPermutation(order, |weights|) && |cum| == |weights| && Cumulative(cum)
    requires forall d :: 0 <= d < |draws| ==> draws[d] < 1.0
    ensures |taken| == |weights| && share == MaskWeight(weights, taken)
    ensures TakenByDraws(taken, cum, order, draws, hits)
    ensures MaskCount(taken, |taken|) <= size && (|hits| < |draws| ==> MaskCount(taken, |taken|) == size)
  {
    taken, share, hits := seq(|weights|, _ => false), 0.0, [];
    NothingTaken(weights);
    hide MaskWeight, MaskCount, Cumulative, Selects, Holds;
    var count := 0;
    while count < size && |hits| < |draws|
      invariant |taken| == |weights| && share == MaskWeight(weights, taken)
      invariant count == MaskCount(taken, |taken|) <= size
      invariant TakenByDraws(taken, cum, order, draws, hits)
      decreases |draws| - |hits|
    {
      hide TakenByDraws;
      DrawsLeft(taken, cum, order, draws, hits);
      var sample := FindSample(cum, draws[|hits|]);
      HoldsInRange(cum, draws[|hits|], sample);
      var i := order[sample];
      TakenNext(taken, cum, order, draws, hits, sample);
      hits := hits + [i];
      if !taken[i] {
        MaskSet(weights, taken, i);
        share := share + weights[i];
        taken := taken[i := true];
        count := count + 1;
      } else {
        assert taken[i := true] == taken;
      }
    }
  }

  lemma DrawsLeft(taken: seq<bool>, cum: seq<real>, order: seq<nat>, draws: seq<real>, hits: seq<nat>)
    requires TakenByDraws(taken, cum, order, draws, hits)
    ensures |hits| <= |draws|
  {
  }

  lemma HoldsInRange(cum: seq<real>, r: real, s: int)
    requires Holds(cum, r, s)
    ensures 0 <= s < |cum|
  {
  }

  /** The sampled dataset: the taken rows in order, their weights scaled by the share taken. */
  method CopySample(data: Matrix, taken: seq<bool>, share: real) returns (sample: Matrix)
    requires |data.rows| == |data.weights| == |taken| && share != 0.0
    ensures |sample.rows| == |sample.weights| == |SelectedList(taken, |taken|)|
    ensures forall r :: 0 <= r < |sample.rows| ==> SelectedList(taken, |taken|)[r] < |taken|
    ensures forall r :: 0 <= r < |sample.rows| ==> sample.rows[r] == data.rows[SelectedList(taken, |taken|)[r]]
    ensures forall r :: 0 <= r < |sample.rows| ==>
      sample.weights[r] == data.weights[SelectedList(taken, |taken|)[r]] / share
  {
    var rows, weights := [], [];
    for i := 0 to |taken|
      invariant |rows| == |weights| == |SelectedList(taken, i)|
      invariant forall r :: 0 <= r < |rows| ==> SelectedList(taken, i)[r] < |taken|
      invariant forall r :: 0 <= r < |rows| ==> rows[r] == data.rows[SelectedList(taken, i)[r]]
      invariant forall r :: 0 <= r < |rows| ==> weights[r] == data.weights[SelectedList(taken, i)[r]] / share
    {
      if taken[i] {
        rows, weights := rows + [data.rows[i]], weights + [data.weights[i] / share];
      }
    }
    sample := Matrix(rows, weights);
  }

  /** The weights of the sample sum to one again. */
  lemma SampleWeightsSumToOne(data: Matrix, taken: seq<bool>, share: real, weights: seq<real>)
    requires |data.weights| == |taken| && share == MaskWeight(data.weights, taken) && share != 0.0
    requires |weights| == |SelectedList(taken, |taken|)|
    requires forall r :: 0 <= r < |weights| ==> SelectedList(taken, |taken|)[r] < |taken|
    requires forall r :: 0 <= r < |weights| ==> weights[r] == data.weights[SelectedList(taken, |taken|)[r]] / share
    ensures TotalWeight(weights) == 1.0
  {
    hide SelectedList, Sum;
    var list := SelectedList(taken, |taken|);
    var cost := r => if 0 <= r < |list| then At(data.weights, list[r]) else 0.0;
    SumOverSelected(taken, |taken|, c => At(data.weights, c), c => SelectedWeight(data.weights, taken, c), cost);
    WholeOverItself(weights, |list|, cost, share);
  }
}
