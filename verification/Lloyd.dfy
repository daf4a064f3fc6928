/**
 * One step of weighted k-means as a function of values: label every point,
 * then move every center to the weighted mean of its cluster.
 */
module Lloyd {
  import opened Sums
  import opened Points
  import opened Nearest

  /** The weight that point i contributes to cluster c. */
  function Share(data: Matrix, labels: seq<nat>, c: int, i: int): real {
    if 0 <= i < |labels| && labels[i] == c then At(data.weights, i) else 0.0
  }

  /** The weight the first n points give to cluster c. */
  function ClusterWeight(data: Matrix, labels: seq<nat>, c: int, n: nat): real {
    Sum(n, i => Share(data, labels, c, i))
  }

  /** The weighted sum of coordinate j over the points of cluster c among the first n. */
  function ClusterMoment(data: Matrix, labels: seq<nat>, c: int, j: int, n: nat): real {
    Sum(n, i => Cell(data.rows, i, j) * Share(data, labels, c, i))
  }

  /** A moment is divided by the cluster's weight only when that weight is positive. */
  function Normalized(moment: real, weight: real): real {
    if weight > 0.0 then moment / weight else moment
  }

  function CenterCell(data: Matrix, labels: seq<nat>, c: int, j: int): real {
    Normalized(ClusterMoment(data, labels, c, j, |data.rows|), ClusterWeight(data, labels, c, |data.rows|))
  }

  /** The k centers, and their weights, that a labelling determines. */
  function CentersOf(data: Matrix, labels: seq<nat>, k: nat, dim: nat): (m: Matrix)
    ensures |m.rows| == |m.weights| == k && AllOfDimension(m.rows, dim)
    ensures forall c :: 0 <= c < k ==> m.weights[c] == ClusterWeight(data, labels, c, |data.rows|)
    ensures forall c, j :: 0 <= c < k && 0 <= j < dim ==> m.rows[c][j] == CenterCell(data, labels, c, j)
  {
    Matrix(seq(k, c => seq(dim, j => CenterCell(data, labels, c, j))),
           seq(k, c => ClusterWeight(data, labels, c, |data.rows|)))
  }

  predicate ValidCenters(centers: seq<Point>, dim: nat) {
    |centers| > 0 && AllOfDimension(centers, dim)
  }

  /** One k-means iteration. */
  function Step(data: Matrix, centers: seq<Point>): (m: Matrix)
    requires |centers| > 0
    ensures |m.rows| == |m.weights| == |centers| && AllOfDimension(m.rows, |centers[0]|)
  {
    CentersOf(data, Labels(data.rows, centers), |centers|, |centers[0]|)
  }

  predicate ValidLabels(data: Matrix, labels: seq<nat>, k: nat) {
    |labels| == |data.rows| && forall i :: 0 <= i < |labels| ==> labels[i] < k
  }

  /** The weighted squared distance of point i to the center its label names. */
  function PointCost(data: Matrix, labels: seq<nat>, centers: seq<Point>, i: int): real {
    if 0 <= i < |data.rows| && i < |labels| && labels[i] < |centers|
    then At(data.weights, i) * DistSq(data.rows[i], centers[labels[i]])
    else 0.0
  }

  function AssignCost(data: Matrix, labels: seq<nat>, centers: seq<Point>): real {
    Sum(|data.rows|, i => PointCost(data, labels, centers, i))
  }

  /** The weighted distortion of the data under its nearest centers. */
  function Cost(data: Matrix, centers: seq<Point>): real
    requires |centers| > 0
  {
    AssignCost(data, Labels(data.rows, centers), centers)
  }

  // ---------- No labelling is cheaper than the nearest-center one ----------

  lemma NearestLabelsAreCheapest(data: Matrix, labels: seq<nat>, centers: seq<Point>)
    requires |centers| > 0 && |data.weights| == |data.rows| && NonNegative(data.weights)
    requires ValidLabels(data, labels, |centers|)
    ensures Cost(data, centers) <= AssignCost(data, labels, centers)
  {
    hide PointCost, Label, Sum;
    var nearest := Labels(data.rows, centers);
    forall i | 0 <= i < |data.rows|
      ensures PointCost(data, nearest, centers, i) <= PointCost(data, labels, centers, i)
    {
      NearestIsCheapest(data, labels, centers, i);
    }
    SumMonotone(|data.rows|, i => PointCost(data, nearest, centers, i), i => PointCost(data, labels, centers, i));
  }

  lemma NearestIsCheapest(data: Matrix, labels: seq<nat>, centers: seq<Point>, i: nat)
    requires |centers| > 0 && |data.weights| == |data.rows| && NonNegative(data.weights) && i < |data.rows|
    requires ValidLabels(data, labels, |centers|)
    ensures PointCost(data, Labels(data.rows, centers), centers, i) <= PointCost(data, labels, centers, i)
  {
    hide DistSq, Label;
    var p := data.rows[i];
    ScaleMonotone(data.weights[i], DistSq(p, centers[Label(p, centers)]), DistSq(p, centers[labels[i]]));
  }

  lemma ScaleMonotone(w: real, x: real, y: real)
    requires w >= 0.0 && x <= y
    ensures w * x <= w * y
  {
  }

  // ---------- Conservation of mass and moment ----------

  /** A center times its weight is the moment of its cluster, also when the weight is zero. */
  lemma CenterBalancesCluster(data: Matrix, labels: seq<nat>, c: int, j: int)
    requires NonNegative(data.weights)
    ensures ClusterWeight(data, labels, c, |data.rows|) >= 0.0
    ensures ClusterWeight(data, labels, c, |data.rows|) * CenterCell(data, labels, c, j)
         == ClusterMoment(data, labels, c, j, |data.rows|)
  {
    var n := |data.rows|;
    var f := i => Share(data, labels, c, i);
    SumNonNegative(n, f);
    if ClusterWeight(data, labels, c, n) == 0.0 {
      forall i | 0 <= i < n
        ensures Share(data, labels, c, i) == 0.0
      {
        SumAtLeastTerm(n, f, i);
      }
      SumZero(n, i => Cell(data.rows, i, j) * Share(data, labels, c, i));
    }
  }

  /** Summing over clusters and then over points is summing over points. */
  lemma SumByCluster(data: Matrix, labels: seq<nat>, k: nat, f: (int, int) -> real, g: int -> real, h: int -> real)
    requires ValidLabels(data, labels, k)
    requires forall i, c :: 0 <= i < |labels| && 0 <= c < k && c != labels[i] ==> f(i, c) == 0.0
    requires forall i :: 0 <= i < |labels| ==> f(i, labels[i]) == h(i)
    requires forall c :: 0 <= c < k ==> g(c) == Sum(|labels|, i => f(i, c))
    ensures Sum(k, g) == Sum(|labels|, h)
  {
    var n := |labels|;
    SumCongruence(k, g, c => Sum(n, i => f(i, c)));
    SumExchange(n, k, f);
    forall i | 0 <= i < n
      ensures Sum(k, c => f(i, c)) == h(i)
    {
      SumSingle(k, c => f(i, c), labels[i]);
    }
    SumCongruence(n, i => Sum(k, c => f(i, c)), h);
  }

  lemma MassConserved(data: Matrix, labels: seq<nat>, k: nat, dim: nat)
    requires |data.rows| == |data.weights| && ValidLabels(data, labels, k)
    ensures TotalWeight(CentersOf(data, labels, k, dim).weights) == TotalWeight(data.weights)
  {
    var n := |data.rows|;
    var m := CentersOf(data, labels, k, dim);
    var f := (i, c) => Share(data, labels, c, i);
    var g := c => At(m.weights, c);
    forall c | 0 <= c < k
      ensures g(c) == Sum(n, i => f(i, c))
    {
      SumCongruence(n, i => Share(data, labels, c, i), i => f(i, c));
    }
    SumByCluster(data, labels, k, f, g, i => At(data.weights, i));
  }

  /** The first moment of a weighted point set along coordinate j. */
  function Moment(m: Matrix, j: int): real {
    Sum(|m.rows|, i => Cell(m.rows, i, j) * At(m.weights, i))
  }

  lemma MomentConserved(data: Matrix, labels: seq<nat>, k: nat, dim: nat, j: nat)
    requires |data.rows| == |data.weights| && ValidLabels(data, labels, k) && NonNegative(data.weights)
    requires j < dim
    ensures Moment(CentersOf(data, labels, k, dim), j) == Moment(data, j)
  {
    hide At, Sum;
    var n := |data.rows|;
    var m := CentersOf(data, labels, k, dim);
    var f := (i, c) => Cell(data.rows, i, j) * Share(data, labels, c, i);
    var g := c => Cell(m.rows, c, j) * At(m.weights, c);
    forall c | 0 <= c < k
      ensures g(c) == Sum(n, i => f(i, c))
    {
      CenterBalancesCluster(data, labels, c, j);
      AtInRange(m.rows[c], j);
      AtInRange(m.weights, c);
      SumCongruence(n, i => Cell(data.rows, i, j) * Share(data, labels, c, i), i => f(i, c));
    }
    SumByCluster(data, labels, k, f, g, i => Cell(data.rows, i, j) * At(data.weights, i));
  }

  // ---------- The cost drops by the weighted squared movement of the centers ----------

  /** How far the new centers moved, each squared distance weighted by its cluster. */
  function Movement(data: Matrix, labels: seq<nat>, before: seq<Point>, after: seq<Point>): real {
    Sum(|before|, c => MovementOf(data, labels, before, after, c))
  }

  function MovementOf(data: Matrix, labels: seq<nat>, before: seq<Point>, after: seq<Point>, c: int): real {
    if 0 <= c < |before| && c < |after|
    then ClusterWeight(data, labels, c, |data.rows|) * DistSq(before[c], after[c])
    else 0.0
  }

  /** Along one coordinate, moving from b to the mean a saves weight * (b - a)^2. */
  lemma SavingAlongCoordinate(n: nat, share: int -> real, moment: int -> real, saving: int -> real, x: int -> real,
                              b: real, a: real)
    requires forall i :: 0 <= i < n ==> moment(i) == x(i) * share(i)
    requires forall i :: 0 <= i < n ==> saving(i) == share(i) * (Sq(x(i) - b) - Sq(x(i) - a))
    requires Sum(n, share) * a == Sum(n, moment)
    ensures Sum(n, saving) == Sum(n, share) * Sq(b - a)
  {
    hide Sq, Sum;
    forall i | 0 <= i < n
      ensures saving(i) == (2.0 * (a - b)) * moment(i) + (Sq(b) - Sq(a)) * share(i)
    {
      ExpandSaving(share(i), x(i), moment(i), saving(i), b, a);
    }
    SumLinear(n, 2.0 * (a - b), moment, Sq(b) - Sq(a), share, saving);
    CollectSaving(Sum(n, share), Sum(n, moment), b, a);
  }

  lemma ExpandSaving(s: real, x: real, m: real, v: real, b: real, a: real)
    requires m == x * s && v == s * (Sq(x - b) - Sq(x - a))
    ensures v == (2.0 * (a - b)) * m + (Sq(b) - Sq(a)) * s
  {
  }

  lemma CollectSaving(w: real, m: real, b: real, a: real)
    requires w * a == m
    ensures (2.0 * (a - b)) * m + (Sq(b) - Sq(a)) * w == w * Sq(b - a)
  {
  }

  /** What point i, if it belongs to cluster c, saves when its center moves from b to a. */
  function Saving(data: Matrix, labels: seq<nat>, c: int, b: Point, a: Point, i: int): real {
    if 0 <= i < |data.rows|
    then Share(data, labels, c, i) * (DistSq(data.rows[i], b) - DistSq(data.rows[i], a))
    else 0.0
  }

  function SavingCell(data: Matrix, labels: seq<nat>, c: int, b: Point, a: Point, i: int, j: int): real {
    Share(data, labels, c, i) * (Sq(Cell(data.rows, i, j) - At(b, j)) - Sq(Cell(data.rows, i, j) - At(a, j)))
  }

  lemma SavingIsSumOfCells(data: Matrix, labels: seq<nat>, c: int, b: Point, a: Point, i: nat)
    requires i < |data.rows|
    ensures Saving(data, labels, c, b, a, i) == Sum(|data.rows[i]|, j => SavingCell(data, labels, c, b, a, i, j))
  {
    hide Sq, At, Share;
    var p, s := data.rows[i], Share(data, labels, c, i);
    var f, g := j => Sq(At(p, j) - At(b, j)), j => Sq(At(p, j) - At(a, j));
    var h := j => SavingCell(data, labels, c, b, a, i, j);
    forall j | 0 <= j < |p|
      ensures h(j) == s * f(j) + (-s) * g(j)
    {
      SplitDifference(s, f(j), g(j));
    }
    SumLinear(|p|, s, f, -s, g, h);
    SplitDifference(s, DistSq(p, b), DistSq(p, a));
  }

  lemma SplitDifference(s: real, x: real, y: real)
    ensures s * (x - y) == s * x + (-s) * y
  {
  }

  lemma CellColumnSaving(data: Matrix, labels: seq<nat>, c: int, b: Point, a: Point, j: nat)
    requires ClusterWeight(data, labels, c, |data.rows|) * At(a, j) == ClusterMoment(data, labels, c, j, |data.rows|)
    ensures Sum(|data.rows|, i => SavingCell(data, labels, c, b, a, i, j))
         == ClusterWeight(data, labels, c, |data.rows|) * Sq(At(b, j) - At(a, j))
  {
    hide Sq, At, Cell, Share;
    SavingAlongCoordinate(|data.rows|, i => Share(data, labels, c, i),
                          i => Cell(data.rows, i, j) * Share(data, labels, c, i),
                          i => SavingCell(data, labels, c, b, a, i, j), i => Cell(data.rows, i, j), At(b, j), At(a, j));
  }

  /** A whole cluster saves its weight times the squared distance its center moved to the mean a. */
  lemma ClusterSaving(data: Matrix, labels: seq<nat>, dim: nat, c: int, b: Point, a: Point)
    requires AllOfDimension(data.rows, dim) && |b| == |a| == dim
    requires forall j :: 0 <= j < dim ==>
      ClusterWeight(data, labels, c, |data.rows|) * At(a, j) == ClusterMoment(data, labels, c, j, |data.rows|)
    ensures Sum(|data.rows|, i => Saving(data, labels, c, b, a, i))
         == ClusterWeight(data, labels, c, |data.rows|) * DistSq(b, a)
  {
    hide Sq, At, Cell, Share, SavingCell, Saving, ClusterWeight, ClusterMoment;
    var n, w := |data.rows|, ClusterWeight(data, labels, c, |data.rows|);
    var f := (i, j) => SavingCell(data, labels, c, b, a, i, j);
    forall i | 0 <= i < n
      ensures Saving(data, labels, c, b, a, i) == Sum(dim, j => f(i, j))
    {
      SavingIsSumOfCells(data, labels, c, b, a, i);
      SumCongruence(dim, j => SavingCell(data, labels, c, b, a, i, j), j => f(i, j));
    }
    SumCongruence(n, i => Saving(data, labels, c, b, a, i), i => Sum(dim, j => f(i, j)));
    SumExchange(n, dim, f);
    forall j | 0 <= j < dim
      ensures Sum(n, i => f(i, j)) == w * Sq(At(b, j) - At(a, j))
    {
      CellColumnSaving(data, labels, c, b, a, j);
      SumCongruence(n, i => SavingCell(data, labels, c, b, a, i, j), i => f(i, j));
    }
    SumScale(dim, w, j => Sq(At(b, j) - At(a, j)), j => Sum(n, i => f(i, j)));
  }

  lemma PointSaving(data: Matrix, labels: seq<nat>, before: seq<Point>, after: seq<Point>, i: nat)
    requires ValidLabels(data, labels, |before|) && |before| == |after| && i < |data.rows|
    ensures Saving(data, labels, labels[i], before[labels[i]], after[labels[i]], i)
         == PointCost(data, labels, before, i) - PointCost(data, labels, after, i)
  {
    var c := labels[i];
    SplitDifference(At(data.weights, i), DistSq(data.rows[i], before[c]), DistSq(data.rows[i], after[c]));
  }

  lemma SavingOfOthers(data: Matrix, labels: seq<nat>, c: int, b: Point, a: Point, i: nat)
    requires i < |data.rows| && i < |labels| && labels[i] != c
    ensures Saving(data, labels, c, b, a, i) == 0.0
  {
    var d := DistSq(data.rows[i], b) - DistSq(data.rows[i], a);
    assert Share(data, labels, c, i) * d == 0.0 * d;
  }

  /** Moving every center of a labelling to its mean lowers that labelling's cost by exactly the movement. */
  lemma AssignCostDropsByMovement(data: Matrix, labels: seq<nat>, before: seq<Point>, dim: nat)
    requires WellFormed(data, dim) && NonNegative(data.weights)
    requires AllOfDimension(before, dim) && ValidLabels(data, labels, |before|)
    ensures var after := CentersOf(data, labels, |before|, dim).rows;
            AssignCost(data, labels, before) == AssignCost(data, labels, after) + Movement(data, labels, before, after)
  {
    hide At, Cell, Share, DistSq, Saving, PointCost, ClusterWeight, ClusterMoment, Normalized, Sum;
    var n, k := |data.rows|, |before|;
    var after := CentersOf(data, labels, k, dim).rows;
    var f := (i, c) => if 0 <= c < k then Saving(data, labels, c, before[c], after[c], i) else 0.0;
    var h := i => PointCost(data, labels, before, i) - PointCost(data, labels, after, i);
    var g := c => MovementOf(data, labels, before, after, c);
    forall c | 0 <= c < k
      ensures g(c) == Sum(n, i => f(i, c))
    {
      forall j | 0 <= j < dim
        ensures ClusterWeight(data, labels, c, n) * At(after[c], j) == ClusterMoment(data, labels, c, j, n)
      {
        CenterBalancesCluster(data, labels, c, j);
        AtInRange(after[c], j);
      }
      ClusterSaving(data, labels, dim, c, before[c], after[c]);
      SumCongruence(n, i => Saving(data, labels, c, before[c], after[c], i), i => f(i, c));
    }
    forall i | 0 <= i < n
      ensures f(i, labels[i]) == h(i)
    {
      PointSaving(data, labels, before, after, i);
    }
    forall i, c | 0 <= i < n && 0 <= c < k && c != labels[i]
      ensures f(i, c) == 0.0
    {
      SavingOfOthers(data, labels, c, before[c], after[c], i);
    }
    SumByCluster(data, labels, k, f, g, h);
    SumAdd(n, i => PointCost(data, labels, after, i), h, i => PointCost(data, labels, before, i));
  }

  /** Each iteration lowers the distortion by at least the weighted squared movement of the centers. */
  lemma StepLowersCost(data: Matrix, centers: seq<Point>, dim: nat)
    requires WellFormed(data, dim) && NonNegative(data.weights) && ValidCenters(centers, dim)
    ensures Cost(data, Step(data, centers).rows)
            + Movement(data, Labels(data.rows, centers), centers, Step(data, centers).rows) <= Cost(data, centers)
  {
    var labels := Labels(data.rows, centers);
    AssignCostDropsByMovement(data, labels, centers, dim);
    NearestLabelsAreCheapest(data, labels, Step(data, centers).rows);
  }

  lemma MovementTermNonNegative(data: Matrix, labels: seq<nat>, before: seq<Point>, after: seq<Point>, c: int)
    requires NonNegative(data.weights)
    ensures MovementOf(data, labels, before, after, c) >= 0.0
  {
    if 0 <= c < |before| && c < |after| {
      CenterBalancesCluster(data, labels, c, 0);
      DistSqNonNegative(before[c], after[c]);
      ScaleMonotone(ClusterWeight(data, labels, c, |data.rows|), 0.0, DistSq(before[c], after[c]));
    }
  }

  lemma MovementNonNegative(data: Matrix, labels: seq<nat>, before: seq<Point>, after: seq<Point>)
    requires NonNegative(data.weights)
    ensures Movement(data, labels, before, after) >= 0.0
  {
    forall c
      ensures MovementOf(data, labels, before, after, c) >= 0.0
    {
      MovementTermNonNegative(data, labels, before, after, c);
    }
    SumNonNegative(|before|, c => MovementOf(data, labels, before, after, c));
  }
}
