/** The files written after clustering: one representative interval and one weight per selected cluster. */
module SimpointFiles {
  import opened Sums
  import opened Points
  import opened Nearest
  import opened Lloyd
  import opened Coverage

  /** s is the first member of cluster c closest to its center; -1 if the cluster has no member. */
  predicate IsRepresentative(labels: seq<nat>, dists: seq<real>, c: nat, s: int)
    requires |labels| == |dists|
  {
    if s == -1 then c !in labels
    else
      && 0 <= s < |labels| && labels[s] == c
      && (forall i :: 0 <= i < |labels| && labels[i] == c ==> dists[s] <= dists[i])
      && (forall i :: 0 <= i < s && labels[i] == c ==> dists[s] < dists[i])
  }

  /** The selected clusters among the first n, in ascending order. */
  function SelectedList(mask: seq<bool>, n: nat): seq<nat> {
    if n == 0 then []
    else SelectedList(mask, n - 1) + if Selected(mask, n - 1) then [n - 1] else []
  }

  /** The list holds exactly the selected clusters, each once and in order. */
  lemma {:induction false} SelectedListIsExact(mask: seq<bool>, n: nat)
    ensures forall r :: 0 <= r < |SelectedList(mask, n)| ==>
      Selected(mask, SelectedList(mask, n)[r]) && SelectedList(mask, n)[r] < n
    ensures forall c :: 0 <= c < n && Selected(mask, c) ==> c in SelectedList(mask, n)
    ensures forall r, s :: 0 <= r < s < |SelectedList(mask, n)| ==> SelectedList(mask, n)[r] < SelectedList(mask, n)[s]
  {
    if n > 0 {
      SelectedListIsExact(mask, n - 1);
    }
  }

  /** The closest member of every cluster. */
  method ClosestMembers(dists: seq<real>, labels: seq<nat>, k: nat) returns (simpoints: seq<int>)
    requires |labels| == |dists| && forall i :: 0 <= i < |labels| ==> labels[i] < k
    ensures |simpoints| == k
    ensures forall c :: 0 <= c < k ==> IsRepresentative(labels, dists, c, simpoints[c])
  {
    var minDists := seq(k, _ => -1.0);
    simpoints := seq(k, _ => -1);
    for i := 0 to |dists|
      invariant |simpoints| == |minDists| == k
      invariant forall c :: 0 <= c < k ==> IsRepresentative(labels[..i], dists[..i], c, simpoints[c])
      invariant forall c :: 0 <= c < k && simpoints[c] != -1 ==> minDists[c] == dists[simpoints[c]]
    {
      var b := labels[i];
      ghost var before := simpoints;
      if simpoints[b] == -1 || dists[i] < minDists[b] {
        simpoints := simpoints[b := i];
        minDists := minDists[b := dists[i]];
      }
      forall c | 0 <= c < k
        ensures IsRepresentative(labels[..i + 1], dists[..i + 1], c, simpoints[c])
      {
        RepresentativeExtends(labels, dists, i, c, before[c]);
      }
    }
    assert labels[..|dists|] == labels && dists[..|dists|] == dists;
  }

  lemma RepresentativeExtends(labels: seq<nat>, dists: seq<real>, i: nat, c: nat, s: int)
    requires |labels| == |dists| && i < |labels| && IsRepresentative(labels[..i], dists[..i], c, s)
    ensures var next := if labels[i] == c && (s == -1 || dists[i] < dists[s]) then i else s;
      IsRepresentative(labels[..i + 1], dists[..i + 1], c, next)
  {
    var l, d := labels[..i + 1], dists[..i + 1];
    assert l == labels[..i] + [labels[i]] && d == dists[..i] + [dists[i]];
    assert forall j :: 0 <= j < i ==> l[j] == labels[..i][j] && d[j] == dists[..i][j];
  }

  /** One row per selected cluster, in ascending order, naming its representative. */
  ghost predicate SimpointRows(rows: seq<(int, nat)>, mask: seq<bool>, labels: seq<nat>, dists: seq<real>)
    requires |labels| == |dists|
  {
    && |rows| == |SelectedList(mask, |mask|)|
    && (forall r :: 0 <= r < |rows| ==> rows[r].1 == SelectedList(mask, |mask|)[r])
    && (forall r :: 0 <= r < |rows| ==> IsRepresentative(labels, dists, rows[r].1, rows[r].0))
  }

  /** One row per selected cluster, in the same order, giving its share of the selected weight. */
  ghost predicate WeightRows(rows: seq<(real, nat)>, mask: seq<bool>, weights: seq<real>)
    requires |mask| == |weights|
  {
    && |rows| == |SelectedList(mask, |mask|)|
    && (forall r :: 0 <= r < |rows| ==> rows[r].1 == SelectedList(mask, |mask|)[r] && rows[r].1 < |weights|)
    && (|rows| > 0 ==> MaskWeight(weights, mask) != 0.0)
    && (forall r :: 0 <= r < |rows| ==> rows[r].0 == weights[rows[r].1] / MaskWeight(weights, mask))
  }

  /** Rows "interval cluster" of the simpoints file. */
  method SaveSimpoints(mask: seq<bool>, dists: seq<real>, labels: seq<nat>, k: nat) returns (rows: seq<(int, nat)>)
    requires |mask| == k && |labels| == |dists| && forall i :: 0 <= i < |labels| ==> labels[i] < k
    ensures SimpointRows(rows, mask, labels, dists)
  {
    hide IsRepresentative;
    var simpoints := ClosestMembers(dists, labels, k);
    rows := [];
    for c := 0 to k
      invariant |rows| == |SelectedList(mask, c)|
      invariant forall r :: 0 <= r < |rows| ==>
        rows[r].1 == SelectedList(mask, c)[r] && IsRepresentative(labels, dists, rows[r].1, rows[r].0)
    {
      if mask[c] {
        rows := rows + [(simpoints[c], c)];
      }
    }
  }

  method SumSelected(mask: seq<bool>, weights: seq<real>) returns (sumWeights: real)
    requires |mask| == |weights|
    ensures sumWeights == MaskWeight(weights, mask)
  {
    sumWeights := 0.0;
    for r := 0 to |weights|
      invariant sumWeights == Sum(r, c => SelectedWeight(weights, mask, c))
    {
      if mask[r] {
        sumWeights := sumWeights + weights[r];
      }
    }
  }

  /** Rows "weight cluster" of the weights file, scaled to sum to one. */
  method SaveSimpointWeights(mask: seq<bool>, weights: seq<real>) returns (rows: seq<(real, nat)>)
    requires |mask| == |weights|
    requires forall c :: 0 <= c < |mask| && Selected(mask, c) ==> MaskWeight(weights, mask) != 0.0
    ensures WeightRows(rows, mask, weights)
  {
    hide MaskWeight;
    var sumWeights := SumSelected(mask, weights);
    rows := [];
    for c := 0 to |weights|
      invariant |rows| == |SelectedList(mask, c)|
      invariant |rows| > 0 ==> sumWeights != 0.0
      invariant forall r :: 0 <= r < |rows| ==> rows[r].1 == SelectedList(mask, c)[r] && rows[r].1 < |weights|
      invariant forall r :: 0 <= r < |rows| ==> rows[r].0 == weights[rows[r].1] / sumWeights
    {
      if mask[c] {
        assert Selected(mask, c);
        rows := rows + [(weights[c] / sumWeights, c)];
      }
    }
  }

  // ---------- Centers that carry the weights of their own clusters ----------

  /** Non-negative weights that sum to one, one per row. */
  ghost predicate UnitWeight(m: Matrix) {
    |m.rows| == |m.weights| && NonNegative(m.weights) && TotalWeight(m.weights) == 1.0
  }

  /** Every center carries the weight of the points nearest to it. */
  ghost predicate OwnWeights(data: Matrix, centers: Matrix) {
    && |centers.rows| == |centers.weights| > 0
    && forall c :: 0 <= c < |centers.weights| ==>
         centers.weights[c] == ClusterWeight(data, Labels(data.rows, centers.rows), c, |data.rows|)
  }

  lemma OwnWeightsAreUnit(data: Matrix, centers: Matrix)
    requires UnitWeight(data) && OwnWeights(data, centers)
    ensures UnitWeight(centers)
  {
    hide TotalWeight, ClusterWeight;
    var labels := Labels(data.rows, centers.rows);
    MassConserved(data, labels, |centers.rows|, 0);
    assert CentersOf(data, labels, |centers.rows|, 0).weights == centers.weights;
    forall c | 0 <= c < |centers.weights|
      ensures centers.weights[c] >= 0.0
    {
      CenterBalancesCluster(data, labels, c, 0);
    }
  }

  /** A fixed point of the iteration carries its own weights. */
  lemma FixedPointHasOwnWeights(data: Matrix, centers: Matrix)
    requires |centers.rows| > 0 && centers == Step(data, centers.rows)
    ensures OwnWeights(data, centers)
  {
    hide ClusterWeight;
  }

  /** What an unselected cluster weighs is missing from the selection. */
  lemma UnselectedIsMissing(weights: seq<real>, mask: seq<bool>, c: nat)
    requires NonNegative(weights) && |mask| == |weights| && c < |weights| && !mask[c]
    ensures MaskWeight(weights, mask) + weights[c] <= TotalWeight(weights)
  {
    var rest := i => At(weights, i) - SelectedWeight(weights, mask, i);
    SumAtLeastTerm(|weights|, rest, c);
    SumAdd(|weights|, i => SelectedWeight(weights, mask, i), rest, i => At(weights, i));
  }

  /** Full coverage of non-negative weights that sum to one selects exactly the clusters with weight. */
  lemma FullCoverageSelectsAll(weights: seq<real>, mask: seq<bool>)
    requires NonNegative(weights) && TotalWeight(weights) == 1.0 && IsGreedySelection(weights, 1.0, mask)
    ensures mask == PositiveMask(weights)
  {
    hide MaskWeight, TotalWeight, IsGreedySelection;
    if MaskWeight(weights, mask) < 1.0 {
      ShortMeansAll(weights, 1.0, mask);
    } else {
      GreedyLength(weights, 1.0, mask);
      forall c: nat | c < |weights|
        ensures mask[c] <==> weights[c] > 0.0
      {
        if mask[c] {
          SelectsOnlyPositive(weights, 1.0, mask, c);
        } else {
          UnselectedIsMissing(weights, mask, c);
        }
      }
    }
  }

  lemma GreedyLength(weights: seq<real>, pct: real, mask: seq<bool>)
    requires IsGreedySelection(weights, pct, mask)
    ensures |mask| == |weights|
  {
  }

  /** The selected clusters carry all the weight. */
  lemma PositiveCarriesAll(weights: seq<real>)
    requires NonNegative(weights)
    ensures MaskWeight(weights, PositiveMask(weights)) == TotalWeight(weights)
  {
    SumCongruence(|weights|, c => SelectedWeight(weights, PositiveMask(weights), c), c => At(weights, c));
  }

  /** A cluster with weight has a member. */
  lemma WeightHasMember(data: Matrix, labels: seq<nat>, c: nat)
    requires |labels| == |data.rows| && ClusterWeight(data, labels, c, |data.rows|) > 0.0
    ensures c in labels
  {
    if c !in labels {
      SumZero(|data.rows|, i => Share(data, labels, c, i));
    }
  }

  /** Every row of the two files, for centers with their own weights. */
  lemma OwnWeightFiles(data: Matrix, centers: Matrix, pct: real, mask: seq<bool>, dists: seq<real>,
                       rows: seq<(int, nat)>, weightRows: seq<(real, nat)>)
    requires OwnWeights(data, centers) && IsGreedySelection(centers.weights, pct, mask)
    requires |dists| == |data.rows| && SimpointRows(rows, mask, Labels(data.rows, centers.rows), dists)
    requires |mask| == |centers.weights| && WeightRows(weightRows, mask, centers.weights)
    ensures |rows| == |weightRows| && (|rows| > 0 ==> MaskWeight(centers.weights, mask) != 0.0)
    ensures forall r :: 0 <= r < |rows| ==> 0 <= rows[r].0 < |data.rows|
    ensures forall r :: 0 <= r < |rows| ==> Label(data.rows[rows[r].0], centers.rows) == rows[r].1 == weightRows[r].1
    ensures forall r :: 0 <= r < |rows| ==>
      weightRows[r].0
      == ClusterWeight(data, Labels(data.rows, centers.rows), rows[r].1, |data.rows|)
         / MaskWeight(centers.weights, mask)
  {
    hide ClusterWeight, IsGreedySelection, MaskWeight, TotalWeight, Label;
    var labels := Labels(data.rows, centers.rows);
    SelectedListIsExact(mask, |mask|);
    forall r | 0 <= r < |rows|
      ensures rows[r].1 in labels
    {
      SelectsOnlyPositive(centers.weights, pct, mask, rows[r].1);
      WeightHasMember(data, labels, rows[r].1);
    }
  }

  /** With full coverage the selection is all that has weight, and it weighs one. */
  lemma FullCoverageWeighsOne(weights: seq<real>, mask: seq<bool>)
    requires NonNegative(weights) && TotalWeight(weights) == 1.0 && IsGreedySelection(weights, 1.0, mask)
    ensures mask == PositiveMask(weights) && MaskWeight(weights, mask) == 1.0
  {
    hide IsGreedySelection, MaskWeight, TotalWeight;
    FullCoverageSelectsAll(weights, mask);
    PositiveCarriesAll(weights);
  }

  // ---------- Estimating a whole-program metric from the simpoints ----------

  /** A metric with one value per cluster. */
  ghost predicate ConstantOnClusters(v: int -> real, labels: seq<nat>) {
    forall i, j :: 0 <= i < |labels| && 0 <= j < |labels| && labels[i] == labels[j] ==> v(i) == v(j)
  }

  /** The value of the metric on the members of cluster c. */
  ghost function ClusterValue(v: int -> real, labels: seq<nat>, c: int): real {
    if exists i :: 0 <= i < |labels| && labels[i] == c
    then var i :| 0 <= i < |labels| && labels[i] == c; v(i)
    else 0.0
  }

  lemma {:induction false} SumOverSelected(mask: seq<bool>, n: nat, h: int -> real, g: int -> real, f: int -> real)
    requires forall c :: 0 <= c < n ==> g(c) == if Selected(mask, c) then h(c) else 0.0
    requires forall r :: 0 <= r < |SelectedList(mask, n)| ==> f(r) == h(SelectedList(mask, n)[r])
    ensures Sum(|SelectedList(mask, n)|, f) == Sum(n, g)
  {
    if n > 0 {
      var shorter := SelectedList(mask, n - 1);
      assert shorter <= SelectedList(mask, n);
      SumOverSelected(mask, n - 1, h, g, f);
    }
  }

  function RowTerm(rows: seq<(int, nat)>, weightRows: seq<(real, nat)>, v: int -> real, r: int): real {
    if 0 <= r < |rows| && r < |weightRows| then weightRows[r].0 * v(rows[r].0) else 0.0
  }

  /** The weighted sum of the metric over the simpoints. */
  function Estimate(rows: seq<(int, nat)>, weightRows: seq<(real, nat)>, v: int -> real): real {
    Sum(|rows|, r => RowTerm(rows, weightRows, v, r))
  }

  function IntervalTerm(data: Matrix, v: int -> real, i: int): real {
    At(data.weights, i) * v(i)
  }

  /** The weighted average of the metric over all intervals. */
  function WholeRun(data: Matrix, v: int -> real): real {
    Sum(|data.rows|, i => IntervalTerm(data, v, i))
  }

  /** What interval i contributes to the whole run through cluster c. */
  function MemberTerm(data: Matrix, labels: seq<nat>, v: int -> real, i: int, c: int): real {
    Share(data, labels, c, i) * v(i)
  }

  /** What cluster c contributes: its weight times the metric's value on it. */
  ghost function ClusterTerm(data: Matrix, labels: seq<nat>, v: int -> real, c: int): real {
    ClusterWeight(data, labels, c, |data.rows|) * ClusterValue(v, labels, c)
  }

  lemma MemberTermValue(data: Matrix, labels: seq<nat>, v: int -> real, i: nat, c: int)
    requires i < |labels| && ConstantOnClusters(v, labels)
    ensures MemberTerm(data, labels, v, i, c) == ClusterValue(v, labels, c) * Share(data, labels, c, i)
    ensures MemberTerm(data, labels, v, i, c) == if labels[i] == c then IntervalTerm(data, v, i) else 0.0
  {
    if labels[i] == c {
      ClusterValueAt(v, labels, i);
    }
  }

  lemma ClusterValueAt(v: int -> real, labels: seq<nat>, i: nat)
    requires ConstantOnClusters(v, labels) && i < |labels|
    ensures ClusterValue(v, labels, labels[i]) == v(i)
  {
  }

  /** The members of a cluster contribute the cluster's weight times its value. */
  lemma ClusterContribution(data: Matrix, labels: seq<nat>, c: int, v: int -> real)
    requires |labels| == |data.rows| && ConstantOnClusters(v, labels)
    ensures Sum(|data.rows|, i => MemberTerm(data, labels, v, i, c)) == ClusterTerm(data, labels, v, c)
  {
    hide MemberTerm, ClusterValue, Share, Sum;
    var n, x := |data.rows|, ClusterValue(v, labels, c);
    forall i | 0 <= i < n
      ensures MemberTerm(data, labels, v, i, c) == x * Share(data, labels, c, i)
    {
      MemberTermValue(data, labels, v, i, c);
    }
    SumScale(n, x, i => Share(data, labels, c, i), i => MemberTerm(data, labels, v, i, c));
  }

  lemma WholeRunByCluster(data: Matrix, labels: seq<nat>, k: nat, v: int -> real)
    requires |data.rows| == |data.weights| && ValidLabels(data, labels, k) && ConstantOnClusters(v, labels)
    ensures Sum(k, c => ClusterTerm(data, labels, v, c)) == WholeRun(data, v)
  {
    hide MemberTerm, ClusterTerm, IntervalTerm, Sum, ConstantOnClusters;
    var n := |data.rows|;
    var f := (i, c) => MemberTerm(data, labels, v, i, c);
    var g := c => ClusterTerm(data, labels, v, c);
    forall c | 0 <= c < k
      ensures g(c) == Sum(n, i => f(i, c))
    {
      ClusterContribution(data, labels, c, v);
      SumCongruence(n, i => MemberTerm(data, labels, v, i, c), i => f(i, c));
    }
    forall i, c | 0 <= i < n && 0 <= c < k
      ensures f(i, c) == if labels[i] == c then IntervalTerm(data, v, i) else 0.0
    {
      MemberTermValue(data, labels, v, i, c);
    }
    SumByCluster(data, labels, k, f, g, i => IntervalTerm(data, v, i));
  }

  /** A row of the files contributes its cluster's term over the selected weight. */
  lemma RowTermValue(data: Matrix, labels: seq<nat>, v: int -> real, rows: seq<(int, nat)>,
                     weightRows: seq<(real, nat)>, share: real, r: nat)
    requires ConstantOnClusters(v, labels) && r < |rows| && r < |weightRows| && share != 0.0
    requires 0 <= rows[r].0 < |labels| && labels[rows[r].0] == rows[r].1
    requires weightRows[r].0 == ClusterWeight(data, labels, rows[r].1, |data.rows|) / share
    ensures share * RowTerm(rows, weightRows, v, r) == ClusterTerm(data, labels, v, rows[r].1)
  {
    ClusterValueAt(v, labels, rows[r].0);
    CancelShare(ClusterWeight(data, labels, rows[r].1, |data.rows|), share, v(rows[r].0));
  }

  lemma CancelShare(w: real, share: real, x: real)
    requires share != 0.0
    ensures share * ((w / share) * x) == w * x
  {
    assert share * (w / share) == w;
    assert share * ((w / share) * x) == (share * (w / share)) * x;
  }

  /** What the selected clusters contribute to the whole run. */
  ghost function SelectedTerm(data: Matrix, labels: seq<nat>, v: int -> real, mask: seq<bool>, c: int): real {
    if Selected(mask, c) then ClusterTerm(data, labels, v, c) else 0.0
  }

  /** The estimate times the selected weight is what the selected clusters contribute. */
  lemma EstimateOfSelected(data: Matrix, centers: Matrix, pct: real, mask: seq<bool>, dists: seq<real>,
                           rows: seq<(int, nat)>, weightRows: seq<(real, nat)>, v: int -> real)
    requires OwnWeights(data, centers) && IsGreedySelection(centers.weights, pct, mask)
    requires |dists| == |data.rows| && SimpointRows(rows, mask, Labels(data.rows, centers.rows), dists)
    requires |mask| == |centers.weights| && WeightRows(weightRows, mask, centers.weights)
    requires ConstantOnClusters(v, Labels(data.rows, centers.rows))
    ensures var labels := Labels(data.rows, centers.rows);
      MaskWeight(centers.weights, mask) * Estimate(rows, weightRows, v)
      == Sum(|mask|, c => SelectedTerm(data, labels, v, mask, c))
  {
    hide ClusterWeight, ClusterTerm, RowTerm, IsGreedySelection, WeightRows, MaskWeight, Label, IsRepresentative,
         ConstantOnClusters, SelectedList, Sum;
    var labels, share := Labels(data.rows, centers.rows), MaskWeight(centers.weights, mask);
    OwnWeightFiles(data, centers, pct, mask, dists, rows, weightRows);
    var h := c => ClusterTerm(data, labels, v, c);
    var f := r => share * RowTerm(rows, weightRows, v, r);
    forall r | 0 <= r < |rows|
      ensures f(r) == h(SelectedList(mask, |mask|)[r])
    {
      RowTermValue(data, labels, v, rows, weightRows, share, r);
    }
    SumOverSelected(mask, |mask|, h, c => SelectedTerm(data, labels, v, mask, c), f);
    SumScale(|rows|, share, r => RowTerm(rows, weightRows, v, r), f);
  }

  lemma WeightlessTerm(data: Matrix, labels: seq<nat>, v: int -> real, c: int)
    requires ClusterWeight(data, labels, c, |data.rows|) == 0.0
    ensures ClusterTerm(data, labels, v, c) == 0.0
  {
  }

  /** The simpoints and their weights reproduce the whole-run average of any metric constant on clusters. */
  lemma SimpointsEstimateExactly(data: Matrix, centers: Matrix, mask: seq<bool>, dists: seq<real>,
                                 rows: seq<(int, nat)>, weightRows: seq<(real, nat)>, v: int -> real)
    requires UnitWeight(data) && OwnWeights(data, centers) && IsGreedySelection(centers.weights, 1.0, mask)
    requires |dists| == |data.rows| && SimpointRows(rows, mask, Labels(data.rows, centers.rows), dists)
    requires |mask| == |centers.weights| && WeightRows(weightRows, mask, centers.weights)
    requires ConstantOnClusters(v, Labels(data.rows, centers.rows))
    ensures Estimate(rows, weightRows, v) == WholeRun(data, v)
  {
    hide ClusterWeight, ClusterTerm, IsGreedySelection, WeightRows, MaskWeight, Label, SimpointRows,
         ConstantOnClusters, Sum, TotalWeight, Estimate;
    var k, labels := |centers.rows|, Labels(data.rows, centers.rows);
    OwnWeightsAreUnit(data, centers);
    FullCoverageWeighsOne(centers.weights, mask);
    EstimateOfSelected(data, centers, 1.0, mask, dists, rows, weightRows, v);
    forall c | 0 <= c < k
      ensures SelectedTerm(data, labels, v, mask, c) == ClusterTerm(data, labels, v, c)
    {
      if !Selected(mask, c) {
        WeightlessTerm(data, labels, v, c);
      }
    }
    SumCongruence(k, c => SelectedTerm(data, labels, v, mask, c), c => ClusterTerm(data, labels, v, c));
    WholeRunByCluster(data, labels, k, v);
  }

  // ---------- Estimating from the largest clusters only ----------

  /** What a cluster outside the selection contributes to the whole run. */
  ghost function UncoveredTerm(data: Matrix, labels: seq<nat>, v: int -> real, mask: seq<bool>, c: int): real {
    if Selected(mask, c) then 0.0 else ClusterTerm(data, labels, v, c)
  }

  function UncoveredWeight(weights: seq<real>, mask: seq<bool>, c: int): real {
    if Selected(mask, c) then 0.0 else At(weights, c)
  }

  /** The clusters outside the selection carry the rest of the weight. */
  lemma UncoveredIsTheRest(weights: seq<real>, mask: seq<bool>)
    requires |mask| == |weights|
    ensures Sum(|mask|, c => UncoveredWeight(weights, mask, c)) == TotalWeight(weights) - MaskWeight(weights, mask)
  {
    SumAdd(|mask|, c => SelectedWeight(weights, mask, c), c => UncoveredWeight(weights, mask, c), c => At(weights, c));
  }

  lemma ClusterTermBounds(data: Matrix, labels: seq<nat>, v: int -> real, lo: real, hi: real, c: nat)
    requires ClusterWeight(data, labels, c, |data.rows|) >= 0.0 && |labels| == |data.rows|
    requires forall i :: 0 <= i < |labels| ==> lo <= v(i) <= hi
    ensures var w := ClusterWeight(data, labels, c, |data.rows|);
      lo * w <= ClusterTerm(data, labels, v, c) <= hi * w
  {
    hide ClusterWeight;
    var w, x := ClusterWeight(data, labels, c, |data.rows|), ClusterValue(v, labels, c);
    if w == 0.0 {
      WeightlessTerm(data, labels, v, c);
    } else {
      WeightHasMember(data, labels, c);
      assert lo <= x <= hi;
      ScaleMonotone(w, lo, x);
      ScaleMonotone(w, x, hi);
    }
  }

  /**
   * Leaving out clusters costs no more than they weigh: what the covered
   * estimate misses lies between the extremes of the metric times the
   * uncovered weight.
   */
  lemma CoveredEstimateError(data: Matrix, centers: Matrix, pct: real, mask: seq<bool>, dists: seq<real>,
                             rows: seq<(int, nat)>, weightRows: seq<(real, nat)>, v: int -> real, lo: real, hi: real)
    requires UnitWeight(data) && OwnWeights(data, centers) && IsGreedySelection(centers.weights, pct, mask)
    requires |dists| == |data.rows| && SimpointRows(rows, mask, Labels(data.rows, centers.rows), dists)
    requires |mask| == |centers.weights| && WeightRows(weightRows, mask, centers.weights)
    requires ConstantOnClusters(v, Labels(data.rows, centers.rows))
    requires forall i :: 0 <= i < |data.rows| ==> lo <= v(i) <= hi
    ensures var share := MaskWeight(centers.weights, mask);
      lo * (1.0 - share) <= WholeRun(data, v) - share * Estimate(rows, weightRows, v) <= hi * (1.0 - share)
  {
    hide ClusterWeight, ClusterTerm, IsGreedySelection, WeightRows, MaskWeight, Label, SimpointRows,
         ConstantOnClusters, Sum, TotalWeight, Estimate, At;
    var k, labels := |centers.rows|, Labels(data.rows, centers.rows);
    OwnWeightsAreUnit(data, centers);
    EstimateOfSelected(data, centers, pct, mask, dists, rows, weightRows, v);
    WholeRunByCluster(data, labels, k, v);
    var rest := c => UncoveredTerm(data, labels, v, mask, c);
    SumAdd(k, c => SelectedTerm(data, labels, v, mask, c), rest, c => ClusterTerm(data, labels, v, c));
    UncoveredIsTheRest(centers.weights, mask);
    UncoveredBounds(data, centers, mask, v, lo, hi);
  }

  lemma UncoveredBounds(data: Matrix, centers: Matrix, mask: seq<bool>, v: int -> real, lo: real, hi: real)
    requires OwnWeights(data, centers) && NonNegative(centers.weights) && |mask| == |centers.weights|
    requires forall i :: 0 <= i < |data.rows| ==> lo <= v(i) <= hi
    ensures var labels := Labels(data.rows, centers.rows);
      var w := Sum(|mask|, c => UncoveredWeight(centers.weights, mask, c));
      lo * w <= Sum(|mask|, c => UncoveredTerm(data, labels, v, mask, c)) <= hi * w
  {
    hide ClusterWeight, ClusterTerm, Label, Sum;
    var k, labels := |mask|, Labels(data.rows, centers.rows);
    var rest, weight := c => UncoveredTerm(data, labels, v, mask, c), c => UncoveredWeight(centers.weights, mask, c);
    var low, high := c => lo * weight(c), c => hi * weight(c);
    forall c | 0 <= c < k
      ensures low(c) <= rest(c) <= high(c)
    {
      ClusterTermBounds(data, labels, v, lo, hi, c);
    }
    SumMonotone(k, low, rest);
    SumMonotone(k, rest, high);
    SumScale(k, lo, weight, low);
    SumScale(k, hi, weight, high);
  }
}
