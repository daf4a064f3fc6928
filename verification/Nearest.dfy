/** Which center a point belongs to: the first center at minimal squared distance. */
module Nearest {
  import opened Points
  import opened Options

  /** b is the first of the centers at least distance from p. */
  predicate IsFirstNearest(p: Point, centers: seq<Point>, b: int) {
    && 0 <= b < |centers|
    && (forall c :: 0 <= c < |centers| ==> DistSq(p, centers[b]) <= DistSq(p, centers[c]))
    && (forall c :: 0 <= c < b ==> DistSq(p, centers[b]) < DistSq(p, centers[c]))
  }

  lemma FirstNearestUnique(p: Point, centers: seq<Point>, a: int, b: int)
    requires IsFirstNearest(p, centers, a) && IsFirstNearest(p, centers, b)
    ensures a == b
  {
    assert DistSq(p, centers[a]) == DistSq(p, centers[b]);
  }

  /** The label of p among the centers. */
  function Label(p: Point, centers: seq<Point>): (b: nat)
    requires |centers| > 0
    ensures IsFirstNearest(p, centers, b)
    decreases |centers|
  {
    if |centers| == 1 then 0
    else
      var last := |centers| - 1;
      var b := Label(p, centers[..last]);
      assert forall c :: 0 <= c < last ==> centers[..last][c] == centers[c];
      if DistSq(p, centers[last]) < DistSq(p, centers[b]) then last else b
  }

  function Labels(data: seq<Point>, centers: seq<Point>): (labels: seq<nat>)
    requires |centers| > 0
    ensures |labels| == |data|
    ensures forall i :: 0 <= i < |data| ==> labels[i] == Label(data[i], centers)
  {
    seq(|data|, i requires 0 <= i < |data| => Label(data[i], centers))
  }

  /** The squared distance of every point to its nearest center. */
  function Dists(data: seq<Point>, centers: seq<Point>): (dists: seq<real>)
    requires |centers| > 0
    ensures |dists| == |data|
    ensures forall i :: 0 <= i < |data| ==> dists[i] == DistSq(data[i], centers[Label(data[i], centers)])
  {
    seq(|data|, i requires 0 <= i < |data| => DistSq(data[i], centers[Label(data[i], centers)]))
  }

  /** d is below the best distance so far; before any center is seen the bound is infinite. */
  predicate Below(d: real, best: Option<real>) {
    best.None? || d < best.value
  }

  /** best and chosen describe the first nearest center among the first c. */
  ghost predicate BestSoFar(p: Point, centers: seq<Point>, c: nat, best: Option<real>, chosen: nat) {
    && c <= |centers|
    && (c == 0 ==> best.None? && chosen == 0)
    && (c > 0 ==> IsFirstNearest(p, centers[..c], chosen) && best == Some(DistSq(p, centers[chosen])))
  }

  lemma BestSoFarStep(p: Point, centers: seq<Point>, c: nat, best: Option<real>, chosen: nat)
    requires c < |centers| && BestSoFar(p, centers, c, best, chosen)
    ensures Below(DistSq(p, centers[c]), best) ==> BestSoFar(p, centers, c + 1, Some(DistSq(p, centers[c])), c)
    ensures !Below(DistSq(p, centers[c]), best) ==> BestSoFar(p, centers, c + 1, best, chosen)
  {
    var now, next := centers[..c], centers[..c + 1];
    assert forall i :: 0 <= i < c ==> next[i] == now[i];
    assert next[c] == centers[c];
    if c > 0 {
      assert now[chosen] == centers[chosen];
    }
  }

  /** The search used below three dimensions: every distance is summed in full. */
  method NearestPlain(p: Point, centers: seq<Point>) returns (chosen: nat)
    requires |centers| > 0 && AllOfDimension(centers, |p|)
    ensures chosen == Label(p, centers)
  {
    hide PartialDistSq, Label, Sq;
    chosen := 0;
    var best: Option<real> := None;
    for c := 0 to |centers|
      invariant BestSoFar(p, centers, c, best, chosen)
    {
      var d2 := 0.0;
      NothingSummed(p, centers[c]);
      for d := 0 to |p|
        invariant d2 == PartialDistSq(p, centers[c], d)
      {
        PartialDistSqNext(p, centers[c], d);
        d2 := d2 + Sq(p[d] - centers[c][d]);
      }
      BestSoFarStep(p, centers, c, best, chosen);
      if Below(d2, best) {
        best, chosen := Some(d2), c;
      }
    }
    assert centers[..|centers|] == centers;
    FirstNearestUnique(p, centers, chosen, Label(p, centers));
  }

  /**
   * The search used from three dimensions on: three terms unrolled, and a
   * distance is abandoned as soon as its partial sum reaches the best one.
   */
  method NearestUnrolled(p: Point, centers: seq<Point>) returns (chosen: nat)
    requires |centers| > 0 && AllOfDimension(centers, |p|)
    requires |p| >= 3
    ensures chosen == Label(p, centers)
  {
    hide PartialDistSq, Label, Sq;
    chosen := 0;
    var best: Option<real> := None;
    for c := 0 to |centers|
      invariant BestSoFar(p, centers, c, best, chosen)
    {
      var q := centers[c];
      var d2 := 0.0;
      d2 := d2 + Sq(p[0] - q[0]);
      d2 := d2 + Sq(p[1] - q[1]);
      d2 := d2 + Sq(p[2] - q[2]);
      NothingSummed(p, q);
      PartialDistSqNext(p, q, 0);
      PartialDistSqNext(p, q, 1);
      PartialDistSqNext(p, q, 2);
      var d := 3;
      while d < |p| && Below(d2, best)
        invariant 3 <= d <= |p|
        invariant d2 == PartialDistSq(p, q, d)
      {
        PartialDistSqNext(p, q, d);
        d2 := d2 + Sq(p[d] - q[d]);
        d := d + 1;
      }
      PartialDistSqMonotone(p, q, d, |p|);
      BestSoFarStep(p, centers, c, best, chosen);
      if Below(d2, best) {
        best, chosen := Some(d2), c;
      }
    }
    assert centers[..|centers|] == centers;
    FirstNearestUnique(p, centers, chosen, Label(p, centers));
  }

  /** The search that starts from the distance to center 0 and keeps that distance. */
  method NearestWithDist(p: Point, centers: seq<Point>) returns (chosen: nat, minDist: real)
    requires |centers| > 0
    ensures chosen == Label(p, centers)
    ensures minDist == DistSq(p, centers[chosen])
  {
    hide DistSq, Label;
    chosen, minDist := 0, DistSq(p, centers[0]);
    for c := 1 to |centers|
      invariant BestSoFar(p, centers, c, Some(minDist), chosen)
    {
      var d := DistSq(p, centers[c]);
      BestSoFarStep(p, centers, c, Some(minDist), chosen);
      if d < minDist {
        chosen, minDist := c, d;
      }
    }
    assert centers[..|centers|] == centers;
    FirstNearestUnique(p, centers, chosen, Label(p, centers));
  }

  /** Labels and squared distances of all points. */
  method FindLabelsAndDists(data: seq<Point>, centers: seq<Point>) returns (labels: seq<nat>, dists: seq<real>)
    requires |centers| > 0
    ensures labels == Labels(data, centers) && dists == Dists(data, centers)
  {
    hide Label, DistSq;
    labels, dists := [], [];
    for i := 0 to |data|
      invariant |labels| == |dists| == i
      invariant forall j :: 0 <= j < i ==> labels[j] == Label(data[j], centers)
      invariant forall j :: 0 <= j < i ==> dists[j] == DistSq(data[j], centers[labels[j]])
    {
      var chosen, minDist := NearestWithDist(data[i], centers);
      labels, dists := labels + [chosen], dists + [minDist];
    }
  }
}
