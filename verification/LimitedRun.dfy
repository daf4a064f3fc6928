/**
 * A run cut off by its iteration limit keeps weights that belong to the
 * previous labelling. Four points and three centers show that a cluster can
 * then carry half of all weight and yet have no member to represent it.
 */
module LimitedRun {
  import opened Sums
  import opened Points
  import opened Nearest
  import opened Lloyd
  import opened Convergence
  import opened SimpointFiles
  import opened Pipeline

  const POINTS := Matrix([[39.0], [40.0], [60.0], [61.0]], [0.25, 0.25, 0.25, 0.25])
  const START := Matrix([[29.0], [50.0], [71.0]], [0.25, 0.5, 0.25])

  lemma LineDist(x: real, y: real)
    ensures DistSq([x], [y]) == Sq(x - y)
  {
    assert PartialDistSq([x], [y], 1) == 0.0 + Sq(x - y);
  }

  function FirstOfThree(u: real, v: real, w: real): nat {
    if v < u then (if w < v then 2 else 1) else if w < u then 2 else 0
  }

  lemma LineLabel(x: real, a: real, b: real, c: real)
    ensures Label([x], [[a], [b], [c]]) == FirstOfThree(Sq(x - a), Sq(x - b), Sq(x - c))
  {
    hide DistSq, Sq;
    LineDist(x, a);
    LineDist(x, b);
    LineDist(x, c);
    var centers := [[a], [b], [c]];
    var nearest := FirstOfThree(Sq(x - a), Sq(x - b), Sq(x - c));
    assert centers[0] == [a] && centers[1] == [b] && centers[2] == [c];
    assert IsFirstNearest([x], centers, nearest);
    FirstNearestUnique([x], centers, nearest, Label([x], centers));
  }

  lemma SumOfFour(f: int -> real)
    ensures Sum(4, f) == f(0) + f(1) + f(2) + f(3)
  {
    assert Sum(1, f) == f(0);
    assert Sum(2, f) == Sum(1, f) + f(1);
    assert Sum(3, f) == Sum(2, f) + f(2);
  }

  /** The center and weight that a labelling of the four points gives a cluster. */
  lemma FourPointCluster(labels: seq<nat>, c: nat)
    requires |labels| == 4
    ensures ClusterWeight(POINTS, labels, c, 4)
         == (if labels[0] == c then 0.25 else 0.0) + (if labels[1] == c then 0.25 else 0.0)
          + (if labels[2] == c then 0.25 else 0.0) + (if labels[3] == c then 0.25 else 0.0)
    ensures ClusterMoment(POINTS, labels, c, 0, 4)
         == (if labels[0] == c then 9.75 else 0.0) + (if labels[1] == c then 10.0 else 0.0)
          + (if labels[2] == c then 15.0 else 0.0) + (if labels[3] == c then 15.25 else 0.0)
  {
    SumOfFour(i => Share(POINTS, labels, c, i));
    SumOfFour(i => Cell(POINTS.rows, i, 0) * Share(POINTS, labels, c, i));
  }

  lemma CenterOfFourPoints(labels: seq<nat>, c: nat, weight: real, center: real)
    requires |labels| == 4 && c < 3
    requires ClusterWeight(POINTS, labels, c, 4) == weight
    requires ClusterMoment(POINTS, labels, c, 0, 4) == if weight > 0.0 then weight * center else center
    ensures CentersOf(POINTS, labels, 3, 1).rows[c] == [center]
    ensures CentersOf(POINTS, labels, 3, 1).weights[c] == weight
  {
    hide ClusterWeight, ClusterMoment;
    assert CenterCell(POINTS, labels, c, 0) == center;
  }

  /** The label of point i, by its distances to three centers. */
  lemma LabelOnLine(i: nat, a: real, b: real, c: real)
    requires i < 4
    ensures Labels(POINTS.rows, [[a], [b], [c]])[i]
         == FirstOfThree(Sq(POINTS.rows[i][0] - a), Sq(POINTS.rows[i][0] - b), Sq(POINTS.rows[i][0] - c))
  {
    hide Label, Sq, FirstOfThree;
    var x := POINTS.rows[i][0];
    assert POINTS.rows[i] == [x];
    LineLabel(x, a, b, c);
  }

  predicate FitsLine(labels: seq<nat>, a: real, b: real, c: real, i: nat)
    requires |labels| == 4 && i < 4
  {
    labels[i] == FirstOfThree(Sq(POINTS.rows[i][0] - a), Sq(POINTS.rows[i][0] - b), Sq(POINTS.rows[i][0] - c))
  }

  lemma LabelsOnLine(a: real, b: real, c: real, labels: seq<nat>)
    requires |labels| == 4 && forall i :: 0 <= i < 4 ==> FitsLine(labels, a, b, c, i)
    ensures Labels(POINTS.rows, [[a], [b], [c]]) == labels
  {
    hide Label, Labels, Sq, FirstOfThree;
    forall i | 0 <= i < 4
      ensures Labels(POINTS.rows, [[a], [b], [c]])[i] == labels[i]
    {
      LabelOnLine(i, a, b, c);
      assert FitsLine(labels, a, b, c, i);
    }
  }

  lemma FirstLabels()
    ensures Labels(POINTS.rows, START.rows) == [0, 1, 1, 2]
  {
    LabelsOnLine(29.0, 50.0, 71.0, [0, 1, 1, 2]);
  }

  lemma SecondLabels()
    ensures Labels(POINTS.rows, [[39.0], [50.0], [61.0]]) == [0, 0, 2, 2]
  {
    LabelsOnLine(39.0, 50.0, 61.0, [0, 0, 2, 2]);
  }

  lemma FirstGeneration()
    ensures Step(POINTS, START.rows) == Matrix([[39.0], [50.0], [61.0]], [0.25, 0.5, 0.25])
  {
    hide ClusterWeight, ClusterMoment, Labels;
    var labels: seq<nat> := [0, 1, 1, 2];
    FirstLabels();
    FourPointCluster(labels, 0);
    FourPointCluster(labels, 1);
    FourPointCluster(labels, 2);
    CenterOfFourPoints(labels, 0, 0.25, 39.0);
    CenterOfFourPoints(labels, 1, 0.5, 50.0);
    CenterOfFourPoints(labels, 2, 0.25, 61.0);
  }

  lemma SecondGeneration()
    ensures Labels(POINTS.rows, [[39.0], [50.0], [61.0]]) == [0, 0, 2, 2]
    ensures Step(POINTS, [[39.0], [50.0], [61.0]]).rows[1] == [0.0]
  {
    hide ClusterWeight, ClusterMoment, Labels;
    var labels: seq<nat> := [0, 0, 2, 2];
    SecondLabels();
    FourPointCluster(labels, 1);
    CenterOfFourPoints(labels, 1, 0.0, 0.0);
  }

  /** The centers that a run stopped after two iterations returns. */
  const CUT := Matrix([[39.0], [50.0], [61.0]], [0.25, 0.5, 0.25])

  /** Two iterations do not reach a fixed point and leave generation 1 behind. */
  lemma CutRun(iter: nat, centers: Matrix)
    requires EndsOn(POINTS, START, 2, iter, centers)
    ensures iter == 2 && centers == CUT
    ensures !FixedAt(POINTS, START, 0) && !FixedAt(POINTS, START, 1)
  {
    hide Labels, Step;
    FirstGeneration();
    SecondGeneration();
    assert Generation(POINTS, START, 1) == Step(POINTS, START.rows) == CUT;
    assert START.rows[0] == [29.0] && CUT.rows[0] == [39.0] && CUT.rows[1] == [50.0];
  }

  lemma CutWeightsAreUnit()
    ensures UnitWeight(CUT)
  {
    assert Sum(1, i => At(CUT.weights, i)) == 0.25;
    assert Sum(2, i => At(CUT.weights, i)) == 0.75;
  }

  /**
   * Whatever files a run stopped after two iterations writes, a row gives the
   * middle cluster half of all weight and -1 as its representative.
   */
  lemma LimitedRunOrphansCluster(iter: nat, centers: Matrix, f: Files) returns (r: nat)
    requires EndsOn(POINTS, START, 2, iter, centers)
    requires |centers.rows| == |centers.weights| > 0 && FilesFor(POINTS, centers, 1.0, f)
    ensures r < |f.rows| == |f.weightRows|
    ensures f.rows[r] == (-1, 1) && f.weightRows[r] == (0.5, 1)
    ensures !FaithfulFiles(POINTS, centers, f)
  {
    hide Labels, EndsOn, FilesFor, FaithfulFiles, UnitWeight;
    CutRun(iter, centers);
    SecondGeneration();
    CutWeightsAreUnit();
    r := OrphanRow(POINTS, CUT, f, 1);
  }
}
