/** Furthest-first seeding of the centers, and its approximation guarantee. */
module FurthestFirst {
  import opened Points
  import opened Nearest
  import opened Pigeonhole
  import opened KMeansRun

  /** ndx is the first position in start..end holding the largest value there. */
  predicate IsFirstMax(s: seq<real>, start: nat, end: nat, ndx: int) {
    && start <= ndx < end <= |s|
    && (forall i :: start <= i < end ==> s[i] <= s[ndx])
    && (forall i :: start <= i < ndx ==> s[i] < s[ndx])
  }

  function ClampStart(start: int): nat {
    if start < 0 then 0 else start
  }

  function ClampEnd(size: nat, end: int): int {
    if end == -1 || end >= size then size else end
  }

  /** Position i is looked at: it is in the sequence, not before start, and before end unless that is -1. */
  ghost predicate LookedAt(s: seq<real>, start: int, end: int, i: int) {
    0 <= i < |s| && start <= i && (end == -1 || i < end)
  }

  /** The index of the first maximum between start and end, or -1 when that range is empty. */
  method MaxNdx(s: seq<real>, start: int, end: int) returns (ndx: int)
    ensures ClampStart(start) >= ClampEnd(|s|, end) ==> ndx == -1
    ensures ClampStart(start) < ClampEnd(|s|, end) ==> IsFirstMax(s, ClampStart(start), ClampEnd(|s|, end), ndx)
    ensures ndx == -1 <==> forall i :: !LookedAt(s, start, end, i)
    ensures ndx != -1 ==> LookedAt(s, start, end, ndx)
    ensures ndx != -1 ==> forall i :: LookedAt(s, start, end, i) ==> s[i] <= s[ndx] && (i < ndx ==> s[i] < s[ndx])
  {
    var lo, hi := ClampStart(start), ClampEnd(|s|, end);
    assert forall i :: LookedAt(s, start, end, i) <==> lo <= i < hi;
    if |s| <= 0 || lo >= hi || lo >= |s| {
      return -1;
    }
    ndx := lo;
    var max := s[lo];
    for i := lo + 1 to hi
      invariant IsFirstMax(s, lo, i, ndx) && max == s[ndx]
    {
      if s[i] > max {
        max, ndx := s[i], i;
      }
    }
    assert LookedAt(s, start, end, ndx);
  }

  /** The squared distance from p to the closest of the centers. */
  function DistToSet(p: Point, centers: seq<Point>): real
    requires |centers| > 0
  {
    DistSq(p, centers[Label(p, centers)])
  }

  lemma DistToSetIsLeast(p: Point, centers: seq<Point>, c: nat)
    requires c < |centers|
    ensures DistToSet(p, centers) <= DistSq(p, centers[c])
  {
    hide DistSq;
  }

  /** One more center: the distance to the set becomes the smaller of the old one and the new center's. */
  lemma DistToSetExtends(p: Point, centers: seq<Point>, c: nat)
    requires 0 < c < |centers|
    ensures var here, before := DistSq(p, centers[c]), DistToSet(p, centers[..c]);
      DistToSet(p, centers[..c + 1]) == if here < before then here else before
  {
    hide DistSq;
    assert centers[..c + 1][..c] == centers[..c];
  }

  /** Adding centers only brings p closer. */
  lemma {:induction false} DistToSetShrinks(p: Point, centers: seq<Point>, c: nat)
    requires 0 < c <= |centers|
    ensures DistToSet(p, centers) <= DistToSet(p, centers[..c])
  {
    hide DistSq;
    var b := Label(p, centers[..c]);
    DistToSetIsLeast(p, centers, b);
  }

  /** i is the first data point at largest distance from the centers. */
  ghost predicate IsFirstFurthest(data: seq<Point>, centers: seq<Point>, i: nat)
    requires |centers| > 0
  {
    && i < |data|
    && (forall m :: 0 <= m < |data| ==> DistToSet(data[m], centers) <= DistToSet(data[i], centers))
    && (forall m :: 0 <= m < i ==> DistToSet(data[m], centers) < DistToSet(data[i], centers))
  }

  /** Center c is a data point, and the first one furthest from the centers before it. */
  ghost predicate ChosenFurthest(data: seq<Point>, centers: seq<Point>, c: nat)
    requires c < |centers|
  {
    if c == 0 then centers[0] in data
    else exists i: nat :: IsFirstFurthest(data, centers[..c], i) && centers[c] == data[i]
  }

  /** Every center is a data point chosen furthest from its predecessors. */
  ghost predicate GreedyCenters(data: seq<Point>, centers: seq<Point>) {
    forall c :: 0 <= c < |centers| ==> ChosenFurthest(data, centers, c)
  }

  /** The distances of all points to the first c centers. */
  ghost predicate TracksDistances(distances: seq<real>, data: seq<Point>, centers: seq<Point>, c: nat)
    requires 0 < c <= |centers|
  {
    && |distances| == |data|
    && (forall j :: 0 <= j < |data| ==> distances[j] == DistToSet(data[j], centers[..c]))
  }

  /** Brings the distances up to date with center i - 1. */
  method UpdateDistances(data: seq<Point>, centers: seq<Point>, i: nat, distances: seq<real>)
    returns (updated: seq<real>)
    requires 0 < i <= |centers| && |distances| == |data|
    requires i > 1 ==> TracksDistances(distances, data, centers, i - 1)
    ensures TracksDistances(updated, data, centers, i)
  {
    hide DistSq;
    updated := distances;
    for j := 0 to |data|
      invariant |updated| == |data|
      invariant forall r :: 0 <= r < j ==> updated[r] == DistToSet(data[r], centers[..i])
      invariant forall r :: j <= r < |data| ==> updated[r] == distances[r]
    {
      var d := DistSq(data[j], centers[i - 1]);
      if i > 1 {
        DistToSetExtends(data[j], centers, i - 1);
      }
      if i == 1 || d < updated[j] {
        updated := updated[j := d];
      }
    }
  }

  lemma ChoiceIsFurthest(data: seq<Point>, centers: seq<Point>, i: nat, distances: seq<real>, next: int)
    requires 0 < i < |centers| && TracksDistances(distances, data, centers, i)
    requires IsFirstMax(distances, 0, |data|, next)
    requires forall c :: 0 <= c < i ==> ChosenFurthest(data, centers, c)
    ensures var after := centers[i := data[next]];
      && TracksDistances(distances, data, after, i)
      && forall c :: 0 <= c <= i ==> ChosenFurthest(data, after, c)
  {
    hide DistToSet;
    var after := centers[i := data[next]];
    assert after[..i] == centers[..i];
    forall c | 0 <= c <= i
      ensures ChosenFurthest(data, after, c)
    {
      assert after[..c] == centers[..c];
      if c < i {
        assert ChosenFurthest(data, centers, c);
      } else {
        assert IsFirstFurthest(data, centers[..i], next);
      }
    }
  }

  /**
   * Fills the preallocated centers: the first is the data point the random
   * draw names, each later one a point furthest from those before it.
   */
  method InitializeFurthestFirst(data: seq<Point>, draw: nat, centers: Dataset)
    requires |data| > 0
    modifies centers
    ensures |centers.rows| == |old(centers.rows)| && centers.weights == old(centers.weights)
    ensures GreedyCenters(data, centers.rows)
    ensures |centers.rows| > 0 ==> centers.rows[0] == data[draw % |data|]
  {
    hide DistToSet;
    var k := |centers.rows|;
    if k <= 0 {
      return;
    }
    centers.rows := centers.rows[0 := data[draw % |data|]];
    var distances := seq(|data|, _ => 0.0);
    for i := 1 to k
      invariant |centers.rows| == k && centers.weights == old(centers.weights)
      invariant |distances| == |data|
      invariant i > 1 ==> TracksDistances(distances, data, centers.rows, i - 1)
      invariant forall c :: 0 <= c < i ==> ChosenFurthest(data, centers.rows, c)
      invariant centers.rows[0] == data[draw % |data|]
    {
      distances := UpdateDistances(data, centers.rows, i, distances);
      var next := MaxNdx(distances, 0, -1);
      ChoiceIsFurthest(data, centers.rows, i, distances, next);
      centers.rows := centers.rows[i := data[next]];
    }
  }

  ghost predicate CoveredBy(p: Point, centers: seq<Point>, r: real) {
    exists c :: 0 <= c < |centers| && DistSq(p, centers[c]) <= r
  }

  /** Every point has one of the centers within squared distance r. */
  ghost predicate Covers(data: seq<Point>, centers: seq<Point>, r: real) {
    forall i :: 0 <= i < |data| ==> CoveredBy(data[i], centers, r)
  }

  /** Greedy centers are pairwise at least as far apart as any point is from all of them. */
  lemma GreedyCentersAreSpread(data: seq<Point>, centers: seq<Point>, i: nat, c: nat, e: nat)
    requires GreedyCenters(data, centers) && i < |data| && c < e < |centers|
    ensures DistToSet(data[i], centers) <= DistSq(centers[e], centers[c])
  {
    hide DistSq;
    assert ChosenFurthest(data, centers, e);
    DistToSetShrinks(data[i], centers, e);
    DistToSetIsLeast(centers[e], centers[..e], c);
  }

  /** A rival center that covers p. */
  ghost function RivalOf(p: Point, rivals: seq<Point>, r: real): (c: nat)
    requires CoveredBy(p, rivals, r)
    ensures c < |rivals| && DistSq(p, rivals[c]) <= r
  {
    var c :| 0 <= c < |rivals| && DistSq(p, rivals[c]) <= r; c
  }

  lemma CloseThroughRival(p: Point, q: Point, rival: Point, r: real)
    requires |p| == |q| == |rival| && DistSq(p, rival) <= r && DistSq(q, rival) <= r
    ensures DistSq(p, q) <= 4.0 * r
  {
    DistSqRelaxedTriangle(p, q, rival);
  }

  /**
   * The k centers and any one data point are k + 1 points; two of them share one
   * of the k rivals, so they are close, and that bounds the point's distance.
   */
  lemma PointIsNearGreedyCenters(data: seq<Point>, centers: seq<Point>, rivals: seq<Point>, dim: nat, r: real, i: nat)
    requires AllOfDimension(data, dim) && AllOfDimension(rivals, dim)
    requires |rivals| <= |centers| && |centers| > 0 && i < |data|
    requires GreedyCenters(data, centers) && Covers(data, rivals, r)
    ensures DistToSet(data[i], centers) <= 4.0 * r
  {
    hide DistSq, DistToSet, CoveredBy;
    var spread := centers + [data[i]];
    forall m | 0 <= m < |spread|
      ensures |spread[m]| == dim && CoveredBy(spread[m], rivals, r)
    {
      assert m < |centers| ==> ChosenFurthest(data, centers, m);
      assert m < |centers| ==> spread[m] == centers[m] && centers[m] in data;
      var source :| 0 <= source < |data| && data[source] == spread[m];
    }
    var hosts: seq<nat> := seq(|spread|, m requires 0 <= m < |spread| => RivalOf(spread[m], rivals, r));
    var c, e := Collision(hosts, |rivals|);
    CloseThroughRival(spread[e], spread[c], rivals[hosts[c]], r);
    if e < |centers| {
      GreedyCentersAreSpread(data, centers, i, c, e);
    } else {
      DistToSetIsLeast(data[i], centers, c);
    }
  }

  /** Furthest-first is within a factor two (four, for squared distances) of any covering by as many centers. */
  lemma FurthestFirstApproximation(data: seq<Point>, centers: seq<Point>, rivals: seq<Point>, dim: nat, r: real)
    requires AllOfDimension(data, dim) && AllOfDimension(rivals, dim)
    requires |rivals| <= |centers| && |centers| > 0
    requires GreedyCenters(data, centers) && Covers(data, rivals, r)
    ensures Covers(data, centers, 4.0 * r)
  {
    forall i | 0 <= i < |data|
      ensures CoveredBy(data[i], centers, 4.0 * r)
    {
      PointIsNearGreedyCenters(data, centers, rivals, dim, r, i);
      assert DistSq(data[i], centers[Label(data[i], centers)]) <= 4.0 * r;
    }
  }
}
