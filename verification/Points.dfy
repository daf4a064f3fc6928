/** Datapoints and datasets as values, and the squared Euclidean distance between points. */
module Points {
  import opened Sums

  type Point = seq<real>

  /** A dataset seen as a value: its rows and the weight of each row. */
  datatype Matrix = Matrix(rows: seq<Point>, weights: seq<real>)

  /** Coordinate j of p; zero outside p, so that it can be summed over any range. */
  function At(p: seq<real>, j: int): real {
    if 0 <= j < |p| then p[j] else 0.0
  }

  lemma AtInRange(p: seq<real>, j: int)
    requires 0 <= j < |p|
    ensures At(p, j) == p[j]
  {
  }

  /** Coordinate j of row i. */
  function Cell(rows: seq<Point>, i: int, j: int): real {
    if 0 <= i < |rows| then At(rows[i], j) else 0.0
  }

  function Sq(x: real): (r: real)
    ensures r >= 0.0
  {
    x * x
  }

  /** Stated about the value s of the product, which the solver handles better than x * x. */
  lemma ProductPositive(x: real, y: real, s: real)
    requires s == x * y
    requires (x > 0.0 && y > 0.0) || (x < 0.0 && y < 0.0)
    ensures s > 0.0
  {
  }

  /** The first d terms of the squared distance between p and q. */
  function PartialDistSq(p: Point, q: Point, d: nat): real {
    Sum(d, j => Sq(At(p, j) - At(q, j)))
  }

  /** The squared distance, summed over the coordinates of p. */
  function DistSq(p: Point, q: Point): real {
    PartialDistSq(p, q, |p|)
  }

  predicate AllOfDimension(rows: seq<Point>, dim: nat) {
    forall i :: 0 <= i < |rows| ==> |rows[i]| == dim
  }

  predicate WellFormed(m: Matrix, dim: nat) {
    |m.rows| == |m.weights| && AllOfDimension(m.rows, dim)
  }

  predicate NonNegative(s: seq<real>) {
    forall i :: 0 <= i < |s| ==> s[i] >= 0.0
  }

  function TotalWeight(s: seq<real>): real {
    Sum(|s|, i => At(s, i))
  }

  function Origin(dim: nat): Point {
    seq(dim, _ => 0.0)
  }

  lemma NothingSummed(p: Point, q: Point)
    ensures PartialDistSq(p, q, 0) == 0.0
  {
  }

  /** A partial sum grows by one square per coordinate. */
  lemma PartialDistSqNext(p: Point, q: Point, d: nat)
    requires d < |p| && d < |q|
    ensures PartialDistSq(p, q, d + 1) == PartialDistSq(p, q, d) + Sq(p[d] - q[d])
  {
  }

  /** Partial sums of a squared distance only grow. */
  lemma {:induction false} PartialDistSqMonotone(p: Point, q: Point, d: nat, e: nat)
    requires d <= e
    ensures 0.0 <= PartialDistSq(p, q, d) <= PartialDistSq(p, q, e)
    decreases e
  {
    if d < e {
      PartialDistSqMonotone(p, q, d, e - 1);
    } else {
      SumNonNegative(d, j => Sq(At(p, j) - At(q, j)));
    }
  }

  lemma DistSqNonNegative(p: Point, q: Point)
    ensures DistSq(p, q) >= 0.0
  {
    PartialDistSqMonotone(p, q, 0, |p|);
  }

  /** The squared distance separates points. */
  lemma DistSqZeroIffEqual(p: Point, q: Point)
    requires |p| == |q|
    ensures DistSq(p, q) == 0.0 <==> p == q
  {
    var f := j => Sq(At(p, j) - At(q, j));
    if p == q {
      SumZero(|p|, f);
    } else {
      var j :| 0 <= j < |p| && p[j] != q[j];
      SumAtLeastTerm(|p|, f, j);
      ProductPositive(p[j] - q[j], p[j] - q[j], f(j));
    }
  }

  /** Coordinate by coordinate: one more coordinate adds the square of its difference. */
  lemma DistSqExtends(p: Point, q: Point, x: real, y: real)
    requires |p| == |q|
    ensures DistSq([], []) == 0.0
    ensures DistSq(p + [x], q + [y]) == DistSq(p, q) + (x - y) * (x - y)
  {
    SumCongruence(|p|, j => Sq(At(p + [x], j) - At(q + [y], j)), j => Sq(At(p, j) - At(q, j)));
  }

  /** The squared triangle inequality: going through r at most doubles the sum of squares. */
  lemma DistSqRelaxedTriangle(p: Point, q: Point, r: Point)
    requires |p| == |q| == |r|
    ensures DistSq(p, q) <= 2.0 * DistSq(p, r) + 2.0 * DistSq(q, r)
  {
    hide Sq, At, Sum;
    var f, g := j => Sq(At(p, j) - At(r, j)), j => Sq(At(q, j) - At(r, j));
    var h := j => 2.0 * f(j) + 2.0 * g(j);
    forall j | 0 <= j < |p|
      ensures Sq(At(p, j) - At(q, j)) <= h(j)
    {
      SquareOfDifference(At(p, j), At(q, j), At(r, j));
    }
    SumMonotone(|p|, j => Sq(At(p, j) - At(q, j)), h);
    SumLinear(|p|, 2.0, f, 2.0, g, h);
  }

  lemma SquareOfDifference(a: real, b: real, c: real)
    ensures Sq(a - b) <= 2.0 * Sq(a - c) + 2.0 * Sq(b - c)
  {
    assert 2.0 * Sq(a - c) + 2.0 * Sq(b - c) - Sq(a - b) == Sq(a + b - 2.0 * c);
  }

  /** Dividing every entry by s divides the sum by s. */
  lemma QuotientsAddUp(parts: seq<real>, n: nat, cost: int -> real, s: real)
    requires |parts| == n && s != 0.0 && forall c :: 0 <= c < n ==> parts[c] == cost(c) / s
    ensures TotalWeight(parts) == Sum(n, cost) / s
  {
    var inverse := 1.0 / s;
    forall c | 0 <= c < n
      ensures At(parts, c) == inverse * cost(c)
    {
      DivideByMultiplying(cost(c), s);
    }
    SumScale(n, inverse, cost, c => At(parts, c));
    DivideByMultiplying(Sum(n, cost), s);
  }

  lemma DivideByMultiplying(x: real, s: real)
    requires s != 0.0
    ensures x / s == (1.0 / s) * x
  {
  }

  /** Shares of a whole sum to one. */
  lemma WholeOverItself(parts: seq<real>, n: nat, cost: int -> real, s: real)
    requires |parts| == n && s == Sum(n, cost) && s != 0.0 && forall c :: 0 <= c < n ==> parts[c] == cost(c) / s
    ensures TotalWeight(parts) == 1.0
  {
    QuotientsAddUp(parts, n, cost, s);
    DivideByMultiplying(s, s);
  }
}
