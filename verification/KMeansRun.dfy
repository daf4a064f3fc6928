/** The clustering loop as it runs: two center buffers updated in place and swapped every iteration. */
module KMeansRun {
  import opened Points
  import opened Powers
  import opened Nearest
  import opened Lloyd
  import opened Convergence

  /** A matrix of values with one weight per row, updated in place. */
  class Dataset {
    var rows: seq<Point>
    var weights: seq<real>

    function Value(): Matrix
      reads this
    {
      Matrix(rows, weights)
    }

    constructor Copy(other: Dataset)
      ensures Value() == other.Value()
      ensures fresh(this)
    {
      rows, weights := other.rows, other.weights;
    }

    method SetWeight(row: nat, w: real)
      requires row < |weights|
      modifies this
      ensures rows == old(rows) && weights == old(weights)[row := w]
    {
      weights := weights[row := w];
    }

    /** Sets every cell of the matrix, leaving its shape. */
    method Fill(value: real)
      modifies this
      ensures weights == old(weights) && |rows| == |old(rows)|
      ensures forall i :: 0 <= i < |rows| ==> |rows[i]| == |old(rows)[i]|
      ensures forall i, j :: 0 <= i < |rows| && 0 <= j < |rows[i]| ==> rows[i][j] == value
    {
      for i := 0 to |rows|
        invariant weights == old(weights) && |rows| == |old(rows)|
        invariant forall r :: 0 <= r < |rows| ==> |rows[r]| == |old(rows)[r]|
        invariant forall r, j :: 0 <= r < i && 0 <= j < |rows[r]| ==> rows[r][j] == value
      {
        rows := rows[i := seq(|rows[i]|, _ => value)];
      }
    }

    /** Adds p, scaled by w, to one row. */
    method MultAndAdd(row: nat, p: Point, w: real)
      requires row < |rows| && |p| == |rows[row]|
      modifies this
      ensures weights == old(weights) && |rows| == |old(rows)|
      ensures forall r :: 0 <= r < |rows| && r != row ==> rows[r] == old(rows)[r]
      ensures |rows[row]| == |p|
      ensures forall j :: 0 <= j < |p| ==> rows[row][j] == old(rows)[row][j] + p[j] * w
    {
      for d := 0 to |p|
        invariant weights == old(weights) && |rows| == |old(rows)|
        invariant forall r :: 0 <= r < |rows| && r != row ==> rows[r] == old(rows)[r]
        invariant |rows[row]| == |p|
        invariant forall j :: 0 <= j < d ==> rows[row][j] == old(rows)[row][j] + p[j] * w
        invariant forall j :: d <= j < |p| ==> rows[row][j] == old(rows)[row][j]
      {
        rows := rows[row := rows[row][d := rows[row][d] + p[d] * w]];
      }
    }

    method DivideRow(row: nat, w: real)
      requires row < |rows| && w != 0.0
      modifies this
      ensures weights == old(weights) && |rows| == |old(rows)|
      ensures forall r :: 0 <= r < |rows| && r != row ==> rows[r] == old(rows)[r]
      ensures |rows[row]| == |old(rows)[row]|
      ensures forall j :: 0 <= j < |rows[row]| ==> rows[row][j] == old(rows)[row][j] / w
    {
      for d := 0 to |rows[row]|
        invariant weights == old(weights) && |rows| == |old(rows)|
        invariant forall r :: 0 <= r < |rows| && r != row ==> rows[r] == old(rows)[r]
        invariant |rows[row]| == |old(rows)[row]|
        invariant forall j :: 0 <= j < d ==> rows[row][j] == old(rows)[row][j] / w
        invariant forall j :: d <= j < |rows[row]| ==> rows[row][j] == old(rows)[row][j]
      {
        rows := rows[row := rows[row][d := rows[row][d] / w]];
      }
    }

    /** Compares coordinates only; weights play no part. */
    method EqualTo(other: Dataset) returns (same: bool)
      requires |rows| > 0 && |other.rows| > 0
      requires AllOfDimension(rows, |rows[0]|) && AllOfDimension(other.rows, |other.rows[0]|)
      ensures same <==> rows == other.rows
    {
      if |rows| != |other.rows| || |rows[0]| != |other.rows[0]| {
        assert rows[0] == other.rows[0] ==> |rows[0]| == |other.rows[0]|;
        return false;
      }
      for i := 0 to |rows|
        invariant forall r :: 0 <= r < i ==> rows[r] == other.rows[r]
      {
        for j := 0 to |rows[0]|
          invariant forall c :: 0 <= c < j ==> rows[i][c] == other.rows[i][c]
        {
          if rows[i][j] != other.rows[i][j] {
            return false;
          }
        }
      }
      return true;
    }

    method Assign(other: Dataset)
      modifies this
      ensures Value() == old(other.Value())
    {
      rows, weights := other.rows, other.weights;
    }
  }

  /** After `done` points, the buffer holds the clusters' partial moments and weights. */
  ghost predicate Accumulated(value: Matrix, data: Matrix, labels: seq<nat>, k: nat, dim: nat, done: nat) {
    && |value.rows| == |value.weights| == k && AllOfDimension(value.rows, dim)
    && (forall c :: 0 <= c < k ==> value.weights[c] == ClusterWeight(data, labels, c, done))
    && (forall c, j :: 0 <= c < k && 0 <= j < dim ==> value.rows[c][j] == ClusterMoment(data, labels, c, j, done))
  }

  /** The first `done` centers have been divided by their weights. */
  ghost predicate PartlyNormalized(value: Matrix, data: Matrix, labels: seq<nat>, k: nat, dim: nat, done: nat) {
    && |value.rows| == |value.weights| == k && AllOfDimension(value.rows, dim)
    && (forall c :: 0 <= c < k ==> value.weights[c] == ClusterWeight(data, labels, c, |data.rows|))
    && (forall c, j :: 0 <= c < done && 0 <= j < dim && c < k ==> value.rows[c][j] == CenterCell(data, labels, c, j))
    && (forall c, j :: done <= c < k && 0 <= j < dim ==>
          value.rows[c][j] == ClusterMoment(data, labels, c, j, |data.rows|))
  }

  method ClearCenters(buffer: Dataset, ghost data: Matrix, ghost labels: seq<nat>, ghost dim: nat)
    requires WellFormed(buffer.Value(), dim)
    modifies buffer
    ensures Accumulated(buffer.Value(), data, labels, |old(buffer.rows)|, dim, 0)
  {
    buffer.Fill(0.0);
    for c := 0 to |buffer.rows|
      invariant WellFormed(buffer.Value(), dim) && |buffer.rows| == |old(buffer.rows)|
      invariant forall i, j :: 0 <= i < |buffer.rows| && 0 <= j < dim ==> buffer.rows[i][j] == 0.0
      invariant forall i :: 0 <= i < c ==> buffer.weights[i] == 0.0
    {
      buffer.SetWeight(c, 0.0);
    }
  }

  lemma WeightNext(data: Matrix, labels: seq<nat>, c: int, done: nat)
    requires done < |data.rows| == |data.weights| == |labels|
    ensures ClusterWeight(data, labels, c, done + 1)
         == ClusterWeight(data, labels, c, done) + if labels[done] == c then data.weights[done] else 0.0
  {
  }

  lemma MomentNext(data: Matrix, labels: seq<nat>, c: int, j: int, done: nat)
    requires done < |data.rows| == |data.weights| == |labels| && 0 <= j < |data.rows[done]|
    ensures ClusterMoment(data, labels, c, j, done + 1)
         == ClusterMoment(data, labels, c, j, done)
            + if labels[done] == c then data.rows[done][j] * data.weights[done] else 0.0
  {
  }

  method AddPoint(buffer: Dataset, data: Dataset, chosen: nat, point: nat, ghost labels: seq<nat>, ghost k: nat,
                  ghost dim: nat)
    requires buffer != data
    requires WellFormed(data.Value(), dim) && |labels| == |data.rows|
    requires point < |data.rows| && labels[point] == chosen < k
    requires Accumulated(buffer.Value(), data.Value(), labels, k, dim, point)
    modifies buffer
    ensures Accumulated(buffer.Value(), data.Value(), labels, k, dim, point + 1)
  {
    hide ClusterWeight, ClusterMoment;
    var weight := data.weights[point];
    buffer.MultAndAdd(chosen, data.rows[point], weight);
    buffer.SetWeight(chosen, buffer.weights[chosen] + weight);
    forall c, j | 0 <= c < k && 0 <= j < dim
      ensures buffer.rows[c][j] == ClusterMoment(data.Value(), labels, c, j, point + 1)
    {
      MomentNext(data.Value(), labels, c, j, point);
    }
    forall c | 0 <= c < k
      ensures buffer.weights[c] == ClusterWeight(data.Value(), labels, c, point + 1)
    {
      WeightNext(data.Value(), labels, c, point);
    }
  }

  method Accumulate(data: Dataset, centers: Dataset, buffer: Dataset, ghost dim: nat)
    requires buffer != data && buffer != centers
    requires WellFormed(data.Value(), dim) && ValidCenters(centers.rows, dim)
    requires Accumulated(buffer.Value(), data.Value(), Labels(data.rows, centers.rows), |centers.rows|, dim, 0)
    modifies buffer
    ensures Accumulated(buffer.Value(), data.Value(), Labels(data.rows, centers.rows), |centers.rows|, dim, |data.rows|)
  {
    hide Accumulated, Label;
    ghost var labels := Labels(data.rows, centers.rows);
    var dimension := |centers.rows[0]|;
    for point := 0 to |data.rows|
      invariant Accumulated(buffer.Value(), data.Value(), labels, |centers.rows|, dim, point)
    {
      var chosen;
      if dimension < 3 {
        chosen := NearestPlain(data.rows[point], centers.rows);
      } else {
        chosen := NearestUnrolled(data.rows[point], centers.rows);
      }
      AddPoint(buffer, data, chosen, point, labels, |centers.rows|, dim);
    }
  }

  method Normalize(buffer: Dataset, ghost data: Matrix, ghost labels: seq<nat>, ghost k: nat, ghost dim: nat)
    requires Accumulated(buffer.Value(), data, labels, k, dim, |data.rows|)
    modifies buffer
    ensures buffer.Value() == CentersOf(data, labels, k, dim)
  {
    hide ClusterWeight, ClusterMoment;
    for c := 0 to |buffer.rows|
      invariant PartlyNormalized(buffer.Value(), data, labels, k, dim, c)
    {
      var weight := buffer.weights[c];
      if weight > 0.0 {
        buffer.DivideRow(c, weight);
      }
    }
    ghost var result := CentersOf(data, labels, k, dim);
    assert buffer.weights == result.weights;
    assert forall c :: 0 <= c < k ==> buffer.rows[c] == result.rows[c];
  }

  /** One pass of the loop body: the buffer receives the next generation. */
  method Iterate(data: Dataset, centers: Dataset, buffer: Dataset, ghost dim: nat)
    requires buffer != data && buffer != centers
    requires WellFormed(data.Value(), dim) && ValidCenters(centers.rows, dim)
    requires WellFormed(buffer.Value(), dim) && |buffer.rows| == |centers.rows|
    modifies buffer
    ensures buffer.Value() == Step(data.Value(), centers.rows)
  {
    hide Accumulated, CentersOf;
    ghost var labels := Labels(data.rows, centers.rows);
    ClearCenters(buffer, data.Value(), labels, dim);
    Accumulate(data, centers, buffer, dim);
    Normalize(buffer, data.Value(), labels, |centers.rows|, dim);
  }

  /** The generation the loop ends on when it runs into its iteration limit: one before the last computed. */
  function LimitGeneration(maxIterations: int): nat {
    if maxIterations <= 0 then 0 else maxIterations - 1
  }

  /**
   * Runs k-means on the centers in place. `iter` is the number logged by the
   * program. When the loop breaks the centers are a fixed point carrying the
   * weights of their own clusters; when it hits the limit they are the
   * generation before the last one computed.
   */
  method RunKMeans(data: Dataset, centers: Dataset, maxIterations: int, ghost dim: nat) returns (iter: nat)
    requires data != centers
    requires WellFormed(data.Value(), dim) && WellFormed(centers.Value(), dim) && |centers.rows| > 0
    modifies centers
    ensures iter < maxIterations ==>
      && FixedAt(data.Value(), old(centers.Value()), iter)
      && centers.Value() == Generation(data.Value(), old(centers.Value()), iter + 1)
    ensures iter >= maxIterations ==>
      && iter == (if maxIterations <= 0 then 0 else maxIterations)
      && centers.Value() == Generation(data.Value(), old(centers.Value()), LimitGeneration(maxIterations))
    ensures forall u :: 0 <= u < iter ==> !FixedAt(data.Value(), old(centers.Value()), u)
    ensures |centers.rows| == |old(centers.rows)| && WellFormed(centers.Value(), dim)
    ensures NonNegative(data.weights) ==> Cost(data.Value(), centers.rows) <= Cost(data.Value(), old(centers.rows))
    ensures NonNegative(data.weights) && maxIterations > Power(|old(centers.rows)|, |data.rows|) ==>
      && iter <= Power(|old(centers.rows)|, |data.rows|)
      && centers.Value() == Step(data.Value(), centers.rows)
  {
    hide Step;
    ghost var d, start := data.Value(), centers.Value();
    var tempCenters := new Dataset.Copy(centers);
    var newCenters, oldCenters := tempCenters, centers;
    iter := 0;
    while iter < maxIterations
      invariant data.Value() == d && WellFormed(d, dim)
      invariant {newCenters, oldCenters} == {tempCenters, centers} && newCenters != oldCenters
      invariant iter <= maxIterations || iter == 0
      invariant oldCenters.Value() == Generation(d, start, iter)
      invariant newCenters.Value() == Generation(d, start, LimitGeneration(iter))
      invariant WellFormed(oldCenters.Value(), dim) && WellFormed(newCenters.Value(), dim)
      invariant forall u :: 0 <= u < iter ==> !FixedAt(d, start, u)
      invariant iter == 0 ==> oldCenters == centers
    {
      Iterate(data, oldCenters, newCenters, dim);
      var same := tempCenters.EqualTo(centers);
      if same {
        break;
      }
      newCenters, oldCenters := oldCenters, newCenters;
      iter := iter + 1;
    }
    if newCenters != centers {
      centers.Assign(newCenters);
    }
    if NonNegative(d.weights) {
      RunOutcome(d, start, dim, iter);
    }
  }

  /** What the theory of whole runs says about the generation a run ends on. */
  lemma RunOutcome(data: Matrix, start: Matrix, dim: nat, iter: nat)
    requires ValidRun(data, start, dim)
    requires forall u :: 0 <= u < iter ==> !FixedAt(data, start, u)
    ensures iter <= Power(|start.rows|, |data.rows|)
    ensures forall t :: 0 <= t <= iter + 1 ==> Cost(data, Generation(data, start, t).rows) <= Cost(data, start.rows)
  {
    var t := ReachesFixedPoint(data, start, dim);
    forall u | 0 <= u <= iter + 1
      ensures Cost(data, Generation(data, start, u).rows) <= Cost(data, start.rows)
    {
      GenerationsNeverCostMore(data, start, dim, 0, u);
    }
  }
}
