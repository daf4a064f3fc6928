/** Measuring a clustering: total and per-cluster distortion, and the weights of initial centers. */
module Evaluation {
  import opened Sums
  import opened Points
  import opened Nearest
  import opened Lloyd

  function Minus(p: Point, q: Point): (r: Point)
    requires |p| == |q|
    ensures |r| == |p|
  {
    seq(|p|, j requires 0 <= j < |p| => p[j] - q[j])
  }

  /** The length of a difference vector is the distance between the points. */
  lemma DistToOrigin(p: Point, q: Point)
    requires |p| == |q|
    ensures DistSq(Minus(p, q), Origin(|p|)) == DistSq(p, q)
  {
    SumCongruence(|p|, j => Sq(At(Minus(p, q), j) - At(Origin(|p|), j)), j => Sq(At(p, j) - At(q, j)));
  }

  /** What point i adds to the distortion of cluster c. */
  function ClusterPointCost(data: Matrix, labels: seq<nat>, centers: seq<Point>, c: int, i: int): real {
    if 0 <= i < |labels| && labels[i] == c then PointCost(data, labels, centers, i) else 0.0
  }

  function ClusterCost(data: Matrix, labels: seq<nat>, centers: seq<Point>, c: int, n: nat): real {
    Sum(n, i => ClusterPointCost(data, labels, centers, c, i))
  }

  /** The cluster costs add up to the cost of the labelling. */
  lemma ClusterCostsAddUp(data: Matrix, labels: seq<nat>, centers: seq<Point>)
    requires ValidLabels(data, labels, |centers|)
    ensures Sum(|centers|, c => ClusterCost(data, labels, centers, c, |data.rows|)) == AssignCost(data, labels, centers)
  {
    hide PointCost, Sum;
    var f := (i, c) => ClusterPointCost(data, labels, centers, c, i);
    var g := c => ClusterCost(data, labels, centers, c, |data.rows|);
    forall c | 0 <= c < |centers|
      ensures g(c) == Sum(|labels|, i => f(i, c))
    {
      SumCongruence(|labels|, i => ClusterPointCost(data, labels, centers, c, i), i => f(i, c));
    }
    SumByCluster(data, labels, |centers|, f, g, i => PointCost(data, labels, centers, i));
  }

  /** The average weight the distortions are divided by. */
  function AverageWeight(data: Matrix): real
    requires |data.rows| > 0
  {
    TotalWeight(data.weights) / |data.rows| as real
  }

  /** The weighted distortion of a labelling and its share per cluster, both in units of the average weight. */
  method Distortion(data: Matrix, labels: seq<nat>, centers: seq<Point>, dim: nat)
    returns (dist: real, perCluster: seq<real>)
    requires WellFormed(data, dim) && AllOfDimension(centers, dim) && ValidLabels(data, labels, |centers|)
    requires |data.rows| > 0 && TotalWeight(data.weights) != 0.0
    ensures AverageWeight(data) != 0.0 && dist == AssignCost(data, labels, centers) / AverageWeight(data)
    ensures dist * TotalWeight(data.weights) == AssignCost(data, labels, centers) * |data.rows| as real
    ensures |perCluster| == |centers|
    ensures forall c :: 0 <= c < |centers| ==>
      perCluster[c] == ClusterCost(data, labels, centers, c, |data.rows|) / AverageWeight(data)
    ensures TotalWeight(perCluster) == dist
  {
    var total, costs, weight := SumDistortions(data, labels, centers, dim);
    var average := weight / |data.rows| as real;
    assert average == AverageWeight(data) != 0.0 by {
      QuotientNonZero(weight, |data.rows| as real);
    }
    hide AssignCost, ClusterCost, AverageWeight;
    dist := total / average;
    perCluster := DivideAll(costs, average);
    DistortionsAddUp(data, labels, centers, dist, perCluster, average);
    OverAverage(total, weight, |data.rows| as real);
  }

  lemma OverAverage(total: real, weight: real, n: real)
    requires n != 0.0 && weight != 0.0
    ensures weight / n != 0.0 && (total / (weight / n)) * weight == total * n
  {
    QuotientNonZero(weight, n);
    var a := weight / n;
    var d := total / a;
    assert weight == a * n && total == d * a;
    assert d * (a * n) == (d * a) * n;
  }

  /** The squared distance of point i to the center its label names. */
  function PlainCost(data: Matrix, labels: seq<nat>, centers: seq<Point>, i: int): real {
    if 0 <= i < |data.rows| && i < |labels| && labels[i] < |centers|
    then DistSq(data.rows[i], centers[labels[i]])
    else 0.0
  }

  /** With equal weights the distortion is the plain sum of the squared distances. */
  lemma EqualWeightsDistortion(data: Matrix, labels: seq<nat>, centers: seq<Point>, w: real, dist: real)
    requires |data.rows| == |data.weights| > 0 && w != 0.0
    requires forall i :: 0 <= i < |data.weights| ==> data.weights[i] == w
    requires dist * TotalWeight(data.weights) == AssignCost(data, labels, centers) * |data.rows| as real
    ensures dist == Sum(|data.rows|, i => PlainCost(data, labels, centers, i))
  {
    hide PlainCost, PointCost, Sum;
    var n := |data.rows|;
    forall i | 0 <= i < n
      ensures PointCost(data, labels, centers, i) == w * PlainCost(data, labels, centers, i)
    {
      EqualWeightCost(data, labels, centers, i);
    }
    SumScale(n, w, i => PlainCost(data, labels, centers, i), i => PointCost(data, labels, centers, i));
    ConstantSum(data.weights, n, w);
    CancelScale(dist, Sum(n, i => PlainCost(data, labels, centers, i)), w, n as real);
  }

  lemma EqualWeightCost(data: Matrix, labels: seq<nat>, centers: seq<Point>, i: nat)
    requires i < |data.weights|
    ensures PointCost(data, labels, centers, i) == data.weights[i] * PlainCost(data, labels, centers, i)
  {
    hide DistSq;
  }

  lemma {:induction false} ConstantSum(weights: seq<real>, n: nat, w: real)
    requires n <= |weights| && forall i :: 0 <= i < |weights| ==> weights[i] == w
    ensures Sum(n, i => At(weights, i)) == w * n as real
  {
    if n > 0 {
      ConstantSum(weights, n - 1, w);
      var m := (n - 1) as real;
      assert n as real == m + 1.0;
      Distribute(w, m, 1.0);
    }
  }

  lemma CancelScale(x: real, y: real, w: real, n: real)
    requires w != 0.0 && n != 0.0 && x * (w * n) == (w * y) * n
    ensures x == y
  {
    var s := w * n;
    assert (w * y) * n == y * s;
    assert s != 0.0;
    assert x == (x * s) / s && y == (y * s) / s;
  }

  lemma QuotientNonZero(x: real, y: real)
    requires x != 0.0 && y != 0.0
    ensures x / y != 0.0
  {
    var q := x / y;
    assert q * y == x;
  }

  method SumDistortions(data: Matrix, labels: seq<nat>, centers: seq<Point>, dim: nat)
    returns (total: real, costs: seq<real>, weight: real)
    requires WellFormed(data, dim) && AllOfDimension(centers, dim) && ValidLabels(data, labels, |centers|)
    ensures total == AssignCost(data, labels, centers) && weight == TotalWeight(data.weights)
    ensures |costs| == |centers|
    ensures forall c :: 0 <= c < |centers| ==> costs[c] == ClusterCost(data, labels, centers, c, |data.rows|)
  {
    hide DistSq;
    total, weight := 0.0, 0.0;
    costs := seq(|centers|, _ => 0.0);
    for i := 0 to |data.rows|
      invariant total == Sum(i, j => PointCost(data, labels, centers, j))
      invariant weight == Sum(i, j => At(data.weights, j))
      invariant |costs| == |centers|
      invariant forall c :: 0 <= c < |centers| ==> costs[c] == ClusterCost(data, labels, centers, c, i)
    {
      var center := centers[labels[i]];
      DistToOrigin(data.rows[i], center);
      var cost := DistSq(Minus(data.rows[i], center), Origin(dim)) * data.weights[i];
      assert cost == PointCost(data, labels, centers, i);
      total, weight := total + cost, weight + data.weights[i];
      costs := costs[labels[i] := costs[labels[i]] + cost];
    }
  }

  /** The reported distortions of the clusters add up to the reported total. */
  lemma DistortionsAddUp(data: Matrix, labels: seq<nat>, centers: seq<Point>, dist: real, perCluster: seq<real>,
                         average: real)
    requires ValidLabels(data, labels, |centers|) && average != 0.0 && |perCluster| == |centers|
    requires dist == AssignCost(data, labels, centers) / average
    requires forall c :: 0 <= c < |centers| ==>
      perCluster[c] == ClusterCost(data, labels, centers, c, |data.rows|) / average
    ensures TotalWeight(perCluster) == dist
  {
    hide AssignCost, ClusterCost, TotalWeight;
    ClusterCostsAddUp(data, labels, centers);
    QuotientsAddUp(perCluster, |centers|, c => ClusterCost(data, labels, centers, c, |data.rows|), average);
  }

  // ---------- The weights of initial centers ----------

  method ClusterWeights(data: Matrix, labels: seq<nat>, k: nat) returns (weights: seq<real>)
    requires |data.rows| == |data.weights| && ValidLabels(data, labels, k)
    ensures |weights| == k
    ensures forall c :: 0 <= c < k ==> weights[c] == ClusterWeight(data, labels, c, |data.rows|)
  {
    weights := seq(k, _ => 0.0);
    for i := 0 to |data.rows|
      invariant |weights| == k
      invariant forall c :: 0 <= c < k ==> weights[c] == ClusterWeight(data, labels, c, i)
    {
      weights := weights[labels[i] := data.weights[i] + weights[labels[i]]];
    }
  }

  lemma RawTotal(data: Matrix, labels: seq<nat>, k: nat, raw: seq<real>)
    requires |data.rows| == |data.weights| && ValidLabels(data, labels, k) && |raw| == k
    requires forall c :: 0 <= c < k ==> raw[c] == ClusterWeight(data, labels, c, |data.rows|)
    ensures TotalWeight(raw) == TotalWeight(data.weights)
  {
    hide ClusterWeight, TotalWeight;
    assert raw == CentersOf(data, labels, k, 0).weights;
    MassConserved(data, labels, k, 0);
  }

  /** Each initial center gets its cluster's share of all weight, so the shares sum to one. */
  method InitialWeights(data: Matrix, centers: seq<Point>) returns (weights: seq<real>)
    requires |centers| > 0 && |data.rows| == |data.weights| && TotalWeight(data.weights) != 0.0
    ensures |weights| == |centers| && TotalWeight(weights) == 1.0
    ensures forall c :: 0 <= c < |centers| ==>
      weights[c] == ClusterWeight(data, Labels(data.rows, centers), c, |data.rows|) / TotalWeight(data.weights)
  {
    hide ClusterWeight, TotalWeight, Label, Dists;
    var labels, dists := FindLabelsAndDists(data.rows, centers);
    var raw := ClusterWeights(data, labels, |centers|);
    var totalWeight := Total(raw);
    RawTotal(data, labels, |centers|, raw);
    weights := DivideAll(raw, totalWeight);
    SharesOfTotal(weights, raw);
  }

  method Total(parts: seq<real>) returns (total: real)
    ensures total == TotalWeight(parts)
  {
    total := 0.0;
    for c := 0 to |parts|
      invariant total == Sum(c, i => At(parts, i))
    {
      total := total + parts[c];
    }
  }

  lemma SharesOfTotal(shares: seq<real>, parts: seq<real>)
    requires |shares| == |parts| && TotalWeight(parts) != 0.0
    requires forall c :: 0 <= c < |parts| ==> shares[c] == parts[c] / TotalWeight(parts)
    ensures TotalWeight(shares) == 1.0
  {
    WholeOverItself(shares, |parts|, c => At(parts, c), TotalWeight(parts));
  }

  /** Divides every entry in turn. */
  method DivideAll(parts: seq<real>, s: real) returns (shares: seq<real>)
    requires s != 0.0
    ensures |shares| == |parts| && forall c :: 0 <= c < |parts| ==> shares[c] == parts[c] / s
  {
    shares := parts;
    for k := 0 to |parts|
      invariant |shares| == |parts|
      invariant forall c :: 0 <= c < k ==> shares[c] == parts[c] / s
      invariant forall c :: k <= c < |parts| ==> shares[c] == parts[c]
    {
      shares := shares[k := shares[k] / s];
    }
  }
}
