/** Whole runs of k-means: every step descends, no labelling repeats, so the run reaches a fixed point. */
module Convergence {
  import opened Sums
  import opened Points
  import opened Powers
  import opened Nearest
  import opened Lloyd
  import opened Pigeonhole

  /** The centers after t iterations; generation 0 is the starting dataset itself. */
  function Generation(data: Matrix, start: Matrix, t: nat): (m: Matrix)
    requires |start.rows| == |start.weights| > 0
    ensures |m.rows| == |m.weights| == |start.rows|
  {
    if t == 0 then start else Step(data, Generation(data, start, t - 1).rows)
  }

  predicate IsFixed(data: Matrix, centers: seq<Point>)
    requires |centers| > 0
  {
    Step(data, centers).rows == centers
  }

  predicate FixedAt(data: Matrix, start: Matrix, t: nat)
    requires |start.rows| == |start.weights| > 0
  {
    IsFixed(data, Generation(data, start, t).rows)
  }

  /** How many centers are away from the origin, where emptied clusters are sent. */
  function OffOrigin(centers: seq<Point>): nat {
    if |centers| == 0 then 0
    else
      var last := |centers| - 1;
      OffOrigin(centers[..last]) + if centers[last] == Origin(|centers[last]|) then 0 else 1
  }

  /** The quantity every non-final iteration lowers: cost first, then centers off the origin. */
  predicate Descends(data: Matrix, after: seq<Point>, before: seq<Point>)
    requires |after| > 0 && |before| > 0
  {
    || Cost(data, after) < Cost(data, before)
    || (Cost(data, after) == Cost(data, before) && OffOrigin(after) < OffOrigin(before))
  }

  /** The hypotheses of the convergence theory: a well-shaped weighted dataset and starting centers. */
  predicate ValidRun(data: Matrix, start: Matrix, dim: nat) {
    && WellFormed(data, dim) && NonNegative(data.weights)
    && WellFormed(start, dim) && |start.rows| > 0
  }

  /** An emptied cluster is sent to the origin. */
  lemma EmptyClusterGoesToOrigin(data: Matrix, labels: seq<nat>, k: nat, dim: nat, c: nat)
    requires NonNegative(data.weights) && c < k
    requires ClusterWeight(data, labels, c, |data.rows|) <= 0.0
    ensures CentersOf(data, labels, k, dim).rows[c] == Origin(dim)
  {
    var n := |data.rows|;
    var f := i => Share(data, labels, c, i);
    forall j | 0 <= j < dim
      ensures CenterCell(data, labels, c, j) == 0.0
    {
      forall i | 0 <= i < n
        ensures Share(data, labels, c, i) == 0.0
      {
        SumAtLeastTerm(n, f, i);
      }
      SumZero(n, i => Cell(data.rows, i, j) * Share(data, labels, c, i));
    }
  }

  lemma {:induction false} OffOriginDrops(before: seq<Point>, after: seq<Point>)
    requires |before| == |after|
    requires forall c :: 0 <= c < |before| && after[c] != before[c] ==>
      after[c] == Origin(|after[c]|) && before[c] != Origin(|before[c]|)
    ensures OffOrigin(after) <= OffOrigin(before)
    ensures before != after ==> OffOrigin(after) < OffOrigin(before)
  {
    if |before| > 0 {
      var last := |before| - 1;
      OffOriginDrops(before[..last], after[..last]);
      assert before == before[..last] + [before[last]] && after == after[..last] + [after[last]];
    }
  }

  lemma PositiveClusterMovement(data: Matrix, labels: seq<nat>, before: seq<Point>, after: seq<Point>, c: nat)
    requires NonNegative(data.weights) && |before| == |after| && c < |before| && |before[c]| == |after[c]|
    requires ClusterWeight(data, labels, c, |data.rows|) > 0.0 && before[c] != after[c]
    ensures Movement(data, labels, before, after) > 0.0
  {
    hide Sum, DistSq, ClusterWeight;
    DistSqZeroIffEqual(before[c], after[c]);
    DistSqNonNegative(before[c], after[c]);
    var f := c => MovementOf(data, labels, before, after, c);
    forall e | 0 <= e < |before|
      ensures f(e) >= 0.0
    {
      MovementTermNonNegative(data, labels, before, after, e);
    }
    SumAtLeastTerm(|before|, f, c);
    ProductPositive(ClusterWeight(data, labels, c, |data.rows|), DistSq(before[c], after[c]), f(c));
  }

  /** Every iteration that changes the centers strictly descends. */
  lemma StepDescends(data: Matrix, centers: seq<Point>, dim: nat)
    requires WellFormed(data, dim) && NonNegative(data.weights) && ValidCenters(centers, dim)
    requires !IsFixed(data, centers)
    ensures Descends(data, Step(data, centers).rows, centers)
  {
    hide Sum, DistSq, ClusterWeight, Cost, Movement, OffOrigin, CentersOf;
    var labels := Labels(data.rows, centers);
    var after := Step(data, centers).rows;
    StepLowersCost(data, centers, dim);
    MovementNonNegative(data, labels, centers, after);
    if c :| 0 <= c < |centers| && after[c] != centers[c] && ClusterWeight(data, labels, c, |data.rows|) > 0.0 {
      PositiveClusterMovement(data, labels, centers, after, c);
    } else {
      forall c | 0 <= c < |centers| && after[c] != centers[c]
        ensures after[c] == Origin(dim)
      {
        EmptyClusterGoesToOrigin(data, labels, |centers|, dim, c);
      }
      OffOriginDrops(centers, after);
    }
  }

  lemma {:induction false} GenerationsValid(data: Matrix, start: Matrix, dim: nat, t: nat)
    requires ValidRun(data, start, dim)
    ensures WellFormed(Generation(data, start, t), dim)
  {
    if t > 0 {
      GenerationsValid(data, start, dim, t - 1);
    }
  }

  /** Every computed generation carries the weight and the moments of the data. */
  lemma GenerationsConserve(data: Matrix, start: Matrix, dim: nat, t: nat)
    requires ValidRun(data, start, dim) && t > 0
    ensures var m := Generation(data, start, t);
      && TotalWeight(m.weights) == TotalWeight(data.weights)
      && forall j :: 0 <= j < dim ==> Moment(m, j) == Moment(data, j)
  {
    hide TotalWeight, Moment, CentersOf;
    var before := Generation(data, start, t - 1).rows;
    var labels := Labels(data.rows, before);
    GenerationsValid(data, start, dim, t - 1);
    assert |before[0]| == dim;
    MassConserved(data, labels, |before|, dim);
    forall j | 0 <= j < dim
      ensures Moment(Generation(data, start, t), j) == Moment(data, j)
    {
      MomentConserved(data, labels, |before|, dim, j);
    }
  }

  /** Later generations of a run that has not stopped lie strictly below earlier ones. */
  lemma {:induction false} GenerationsDescend(data: Matrix, start: Matrix, dim: nat, s: nat, t: nat)
    requires ValidRun(data, start, dim) && s < t
    requires forall u :: s <= u < t ==> !FixedAt(data, start, u)
    ensures Descends(data, Generation(data, start, t).rows, Generation(data, start, s).rows)
    decreases t
  {
    hide Step, Cost, OffOrigin;
    GenerationsValid(data, start, dim, t - 1);
    assert !FixedAt(data, start, t - 1);
    StepDescends(data, Generation(data, start, t - 1).rows, dim);
    if s < t - 1 {
      GenerationsDescend(data, start, dim, s, t - 1);
    }
  }

  /** The labelling computed in iteration t. */
  function LabelsAt(data: Matrix, start: Matrix, t: nat): seq<nat>
    requires |start.rows| == |start.weights| > 0
  {
    Labels(data.rows, Generation(data, start, t).rows)
  }

  /** A run that has not stopped never labels the points the same way twice. */
  lemma LabellingsDistinct(data: Matrix, start: Matrix, dim: nat, s: nat, t: nat)
    requires ValidRun(data, start, dim) && s < t
    requires forall u :: 0 <= u <= t ==> !FixedAt(data, start, u)
    ensures LabelsAt(data, start, s) != LabelsAt(data, start, t)
  {
    hide Cost, OffOrigin, CentersOf, Labels;
    if LabelsAt(data, start, s) == LabelsAt(data, start, t) {
      GenerationsValid(data, start, dim, s);
      GenerationsValid(data, start, dim, t);
      assert Generation(data, start, s + 1) == Generation(data, start, t + 1);
      GenerationsDescend(data, start, dim, s + 1, t + 1);
    }
  }

  /** A run reaches a fixed point within k^n iterations. */
  lemma ReachesFixedPoint(data: Matrix, start: Matrix, dim: nat) returns (t: nat)
    requires ValidRun(data, start, dim)
    ensures t <= Power(|start.rows|, |data.rows|) && FixedAt(data, start, t)
    ensures forall u :: 0 <= u < t ==> !FixedAt(data, start, u)
  {
    var bound := Power(|start.rows|, |data.rows|);
    t := 0;
    while t <= bound && !FixedAt(data, start, t)
      invariant t <= bound + 1
      invariant forall u :: 0 <= u < t ==> !FixedAt(data, start, u)
    {
      t := t + 1;
    }
    if t > bound {
      var labellings := seq(t, s requires 0 <= s => LabelsAt(data, start, s));
      forall s, u | 0 <= s < u < t
        ensures labellings[s] != labellings[u]
      {
        LabellingsDistinct(data, start, dim, s, u);
      }
      DistinctLabellings(labellings, |data.rows|, |start.rows|);
    }
  }

  /** No generation costs more than an earlier one. */
  lemma {:induction false} GenerationsNeverCostMore(data: Matrix, start: Matrix, dim: nat, s: nat, t: nat)
    requires ValidRun(data, start, dim) && s <= t
    ensures Cost(data, Generation(data, start, t).rows) <= Cost(data, Generation(data, start, s).rows)
    decreases t
  {
    hide Cost, Movement;
    if s < t {
      GenerationsNeverCostMore(data, start, dim, s, t - 1);
      var before := Generation(data, start, t - 1).rows;
      GenerationsValid(data, start, dim, t - 1);
      StepLowersCost(data, before, dim);
      MovementNonNegative(data, Labels(data.rows, before), before, Step(data, before).rows);
    }
  }
}
