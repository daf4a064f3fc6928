/** Loading frequency vectors, with and without projecting them on the way. */
module FrequencyVectors {
  import opened Sums
  import opened Points
  import opened Options

  /** One ":dimension:value" entry of a line; dimensions count from one. */
  datatype Token = Token(dimension: int, value: real)

  type Line = seq<Token>

  datatype LoadError = MoreVectorsThanExpected | DimensionOutOfRange | WrongNumberOfVectors | WrongNumberOfDimensions

  datatype Result<T> = Loaded(value: T) | Rejected(error: LoadError)

  // ---------- What a line says ----------

  function ValueAt(line: Line, t: int): real {
    if 0 <= t < |line| then line[t].value else 0.0
  }

  function LineSum(line: Line): real {
    Sum(|line|, t => ValueAt(line, t))
  }

  /** The value of token t if it is for dimension d (counting from zero). */
  function ValueFor(line: Line, d: int, t: int): real {
    if 0 <= t < |line| && line[t].dimension == d + 1 then line[t].value else 0.0
  }

  /** All values given for dimension d, added up. */
  function SumFor(line: Line, d: int): real {
    Sum(|line|, t => ValueFor(line, d, t))
  }

  /** The last value given for dimension d; zero if there is none. */
  function LastFor(line: Line, d: int): real {
    if |line| == 0 then 0.0
    else if line[|line| - 1].dimension == d + 1 then line[|line| - 1].value
    else LastFor(line[..|line| - 1], d)
  }

  function LargestDimension(line: Line): int {
    if |line| == 0 then 0
    else
      var rest := LargestDimension(line[..|line| - 1]);
      if line[|line| - 1].dimension > rest then line[|line| - 1].dimension else rest
  }

  function LargestInFile(lines: seq<Line>): int {
    if |lines| == 0 then 0
    else
      var rest, here := LargestInFile(lines[..|lines| - 1]), LargestDimension(lines[|lines| - 1]);
      if here > rest then here else rest
  }

  predicate InRange(line: Line, dims: nat) {
    forall t :: 0 <= t < |line| ==> 1 <= line[t].dimension <= dims
  }

  predicate AllInRange(lines: seq<Line>, dims: nat, n: nat)
    requires n <= |lines|
  {
    forall i :: 0 <= i < n ==> InRange(lines[i], dims)
  }

  /** Some token is for dimension d, counting from one. */
  ghost predicate Mentions(line: Line, d: int) {
    exists t :: 0 <= t < |line| && line[t].dimension == d
  }

  ghost predicate MentionedInFile(lines: seq<Line>, d: int) {
    exists i :: 0 <= i < |lines| && Mentions(lines[i], d)
  }

  /** The files both loaders accept: the announced number of lines, all dimensions in range and the last one in use. */
  ghost predicate Acceptable(lines: seq<Line>, points: nat, dims: nat) {
    && |lines| == points && AllInRange(lines, dims, |lines|)
    && (dims == 0 || MentionedInFile(lines, dims))
  }

  // ---------- The same, said of the tokens one by one ----------

  /** The values of the tokens, added up. */
  function TokenTotal(line: Line): real {
    if |line| == 0 then 0.0 else TokenTotal(line[..|line| - 1]) + line[|line| - 1].value
  }

  lemma {:induction false} LineSumPrefix(line: Line, n: nat)
    requires n <= |line|
    ensures Sum(n, t => ValueAt(line, t)) == TokenTotal(line[..n])
  {
    if n > 0 {
      LineSumPrefix(line, n - 1);
      assert line[..n][..n - 1] == line[..n - 1];
    }
  }

  /** What a line is divided by is the total of its values. */
  lemma LineSumIsTotal(line: Line)
    ensures LineSum(line) == TokenTotal(line)
  {
    LineSumPrefix(line, |line|);
    assert line[..|line|] == line;
  }

  /** Token t is for dimension d and none behind it is. */
  ghost predicate IsLastToken(line: Line, d: int, t: nat)
    requires t < |line|
  {
    line[t].dimension == d && forall u :: t < u < |line| ==> line[u].dimension != d
  }

  /** The last token of a dimension decides, and without one the value is zero. */
  lemma {:induction false} LastForExact(line: Line, d: int)
    ensures !Mentions(line, d + 1) ==> LastFor(line, d) == 0.0
    ensures forall t :: 0 <= t < |line| && IsLastToken(line, d + 1, t) ==> LastFor(line, d) == line[t].value
  {
    if |line| > 0 && line[|line| - 1].dimension != d + 1 {
      var init := line[..|line| - 1];
      LastForExact(init, d);
      assert forall t :: 0 <= t < |init| ==> init[t] == line[t];
      assert Mentions(init, d + 1) ==> Mentions(line, d + 1);
      forall t | 0 <= t < |line| && IsLastToken(line, d + 1, t)
        ensures LastFor(line, d) == line[t].value
      {
        assert t < |init| && IsLastToken(init, d + 1, t);
      }
    }
  }

  /** The largest dimension is in use unless it is zero, and no token exceeds it. */
  lemma {:induction false} LargestIsLargest(line: Line)
    ensures forall t :: 0 <= t < |line| ==> line[t].dimension <= LargestDimension(line)
    ensures LargestDimension(line) == 0 || (LargestDimension(line) > 0 && Mentions(line, LargestDimension(line)))
  {
    if |line| > 0 {
      var init := line[..|line| - 1];
      LargestIsLargest(init);
      assert forall t :: 0 <= t < |init| ==> init[t] == line[t];
      if LargestDimension(line) == LargestDimension(init) != 0 {
        var t :| 0 <= t < |init| && init[t].dimension == LargestDimension(init);
        assert line[t].dimension == LargestDimension(line);
      } else if LargestDimension(line) != 0 {
        assert line[|line| - 1].dimension == LargestDimension(line);
      }
    }
  }

  lemma {:induction false} LargestInFileIsLargest(lines: seq<Line>)
    ensures forall i, t :: 0 <= i < |lines| && 0 <= t < |lines[i]| ==> lines[i][t].dimension <= LargestInFile(lines)
    ensures LargestInFile(lines) == 0 || (LargestInFile(lines) > 0 && MentionedInFile(lines, LargestInFile(lines)))
  {
    hide Mentions, LargestDimension;
    if |lines| > 0 {
      var init, last := lines[..|lines| - 1], lines[|lines| - 1];
      LargestInFileIsLargest(init);
      LargestIsLargest(last);
      assert forall i :: 0 <= i < |init| ==> init[i] == lines[i];
      if LargestInFile(lines) == LargestInFile(init) != 0 {
        var i :| 0 <= i < |init| && Mentions(init[i], LargestInFile(init));
        assert Mentions(lines[i], LargestInFile(lines));
      } else if LargestInFile(lines) != 0 {
        assert Mentions(lines[|lines| - 1], LargestInFile(lines));
      }
    }
  }

  /** Dimensions in range reach their number exactly when the last one is in use. */
  lemma LargestMeans(lines: seq<Line>, dims: nat)
    requires AllInRange(lines, dims, |lines|)
    ensures LargestInFile(lines) == dims <==> dims == 0 || MentionedInFile(lines, dims)
  {
    hide LargestInFile;
    var largest := LargestInFile(lines);
    LargestInFileIsLargest(lines);
    if largest != 0 {
      var i :| 0 <= i < |lines| && Mentions(lines[i], largest);
      var t :| 0 <= t < |lines[i]| && lines[i][t].dimension == largest;
      assert InRange(lines[i], dims);
    }
    if MentionedInFile(lines, dims) {
      var i :| 0 <= i < |lines| && Mentions(lines[i], dims);
      var t :| 0 <= t < |lines[i]| && lines[i][t].dimension == dims;
    }
  }

  /** A quotient; where the program divides by zero no clause below says anything about the result. */
  function Over(x: real, s: real): real {
    if s == 0.0 then 0.0 else x / s
  }

  // ---------- The rows ----------

  /** The row as a dense vector, normalised by the line's sum. */
  ghost predicate IsDenseRow(row: Point, line: Line, dims: nat) {
    |row| == dims && (LineSum(line) != 0.0 ==> forall d :: 0 <= d < dims ==> row[d] == LastFor(line, d) / LineSum(line))
  }

  /** What token t adds to column c of the projected row. */
  function ProjectedTerm(line: Line, projection: seq<Point>, c: int, t: int): real {
    if 0 <= t < |line| && LineSum(line) != 0.0
    then (line[t].value / LineSum(line)) * Cell(projection, line[t].dimension - 1, c)
    else 0.0
  }

  ghost predicate IsProjectedRow(row: Point, line: Line, projection: seq<Point>, cols: nat) {
    && |row| == cols
    && (LineSum(line) != 0.0 ==>
          forall c :: 0 <= c < cols ==> row[c] == Sum(|line|, t => ProjectedTerm(line, projection, c, t)))
  }

  /** Entry c of a row vector times a matrix. */
  function Product(row: Point, projection: seq<Point>, c: int): real {
    Sum(|row|, d => At(row, d) * Cell(projection, d, c))
  }

  /** The projected row, its tokens grouped by dimension. */
  function GroupedTerm(line: Line, projection: seq<Point>, c: int, d: int): real {
    if LineSum(line) != 0.0 then (SumFor(line, d) / LineSum(line)) * Cell(projection, d, c) else 0.0
  }

  function PairTerm(line: Line, projection: seq<Point>, c: int, t: int, d: int): real {
    if LineSum(line) != 0.0 then (ValueFor(line, d, t) / LineSum(line)) * Cell(projection, d, c) else 0.0
  }

  lemma PairTermZero(line: Line, projection: seq<Point>, c: int, t: nat, d: int)
    requires t < |line| && line[t].dimension - 1 != d
    ensures PairTerm(line, projection, c, t, d) == 0.0
  {
  }

  lemma PairTermOwn(line: Line, projection: seq<Point>, c: int, t: nat)
    requires t < |line|
    ensures PairTerm(line, projection, c, t, line[t].dimension - 1) == ProjectedTerm(line, projection, c, t)
  {
  }

  lemma PairTermsOfDimension(line: Line, projection: seq<Point>, c: int, d: int)
    ensures Sum(|line|, t => PairTerm(line, projection, c, t, d)) == GroupedTerm(line, projection, c, d)
  {
    hide Cell, ValueFor, LineSum, Sum;
    var n, s := |line|, LineSum(line);
    if s != 0.0 {
      var a := Cell(projection, d, c) / s;
      forall t | 0 <= t < n
        ensures PairTerm(line, projection, c, t, d) == a * ValueFor(line, d, t)
      {
        Regroup(ValueFor(line, d, t), s, Cell(projection, d, c));
      }
      SumScale(n, a, t => ValueFor(line, d, t), t => PairTerm(line, projection, c, t, d));
      Regroup(SumFor(line, d), s, Cell(projection, d, c));
    } else {
      SumZero(n, t => PairTerm(line, projection, c, t, d));
    }
  }

  lemma Regroup(x: real, s: real, p: real)
    requires s != 0.0
    ensures (x / s) * p == (p / s) * x
  {
  }

  /** Projecting token by token sums, per dimension, all the values the line gives. */
  lemma ProjectionGroupsByDimension(line: Line, projection: seq<Point>, dims: nat, c: int)
    requires InRange(line, dims)
    ensures Sum(|line|, t => ProjectedTerm(line, projection, c, t))
         == Sum(dims, d => GroupedTerm(line, projection, c, d))
  {
    hide PairTerm, ProjectedTerm, GroupedTerm, Sum;
    var n := |line|;
    var f := (t, d) => PairTerm(line, projection, c, t, d);
    SumExchange(n, dims, f);
    forall t | 0 <= t < n
      ensures Sum(dims, d => f(t, d)) == ProjectedTerm(line, projection, c, t)
    {
      var own := line[t].dimension - 1;
      forall d | 0 <= d < dims && d != own
        ensures f(t, d) == 0.0
      {
        PairTermZero(line, projection, c, t, d);
      }
      SumSingle(dims, d => f(t, d), own);
      PairTermOwn(line, projection, c, t);
    }
    SumCongruence(n, t => Sum(dims, d => f(t, d)), t => ProjectedTerm(line, projection, c, t));
    forall d | 0 <= d < dims
      ensures Sum(n, t => f(t, d)) == GroupedTerm(line, projection, c, d)
    {
      PairTermsOfDimension(line, projection, c, d);
      SumCongruence(n, t => PairTerm(line, projection, c, t, d), t => f(t, d));
    }
    SumCongruence(dims, d => Sum(n, t => f(t, d)), d => GroupedTerm(line, projection, c, d));
  }

  /** The values of a dimension in a line agree with its last one. */
  predicate LastIsAll(line: Line, dims: nat) {
    forall d :: 0 <= d < dims ==> SumFor(line, d) == LastFor(line, d)
  }

  /** A line that can be normalised and on which the loaders agree. */
  predicate Agrees(line: Line, dims: nat) {
    LineSum(line) != 0.0 && LastIsAll(line, dims)
  }

  lemma ProductTerm(row: Point, line: Line, projection: seq<Point>, dims: nat, c: int, d: nat)
    requires IsDenseRow(row, line, dims) && LineSum(line) != 0.0 && d < dims && SumFor(line, d) == LastFor(line, d)
    ensures At(row, d) * Cell(projection, d, c) == GroupedTerm(line, projection, c, d)
  {
  }

  /** If every dimension's values come down to the last one, projecting on the fly is loading and then multiplying. */
  lemma ProjectionIsProduct(row: Point, line: Line, projection: seq<Point>, dims: nat, c: int)
    requires InRange(line, dims) && IsDenseRow(row, line, dims) && LineSum(line) != 0.0 && LastIsAll(line, dims)
    ensures Sum(|line|, t => ProjectedTerm(line, projection, c, t)) == Product(row, projection, c)
  {
    hide GroupedTerm, ProjectedTerm, Sum;
    ProjectionGroupsByDimension(line, projection, dims, c);
    forall d | 0 <= d < dims
      ensures At(row, d) * Cell(projection, d, c) == GroupedTerm(line, projection, c, d)
    {
      ProductTerm(row, line, projection, dims, c, d);
    }
    SumCongruence(dims, d => At(row, d) * Cell(projection, d, c), d => GroupedTerm(line, projection, c, d));
  }

  /** The projection onto one dimension: a single column with a one in row d. */
  function UnitColumn(dims: nat, d: nat): (p: seq<Point>)
    ensures |p| == dims && AllOfDimension(p, 1)
  {
    seq(dims, i => [if i == d then 1.0 else 0.0])
  }

  /** Projecting onto one dimension reads off that dimension, added up on the fly but only the last when dense. */
  lemma UnitProjection(row: Point, line: Line, dims: nat, d: nat)
    requires InRange(line, dims) && IsDenseRow(row, line, dims) && LineSum(line) != 0.0 && d < dims
    ensures Sum(|line|, t => ProjectedTerm(line, UnitColumn(dims, d), 0, t)) == SumFor(line, d) / LineSum(line)
    ensures Product(row, UnitColumn(dims, d), 0) == LastFor(line, d) / LineSum(line)
  {
    hide ProjectedTerm, Sum, SumFor, LineSum, LastFor;
    var p := UnitColumn(dims, d);
    assert forall i :: 0 <= i < dims ==> Cell(p, i, 0) == if i == d then 1.0 else 0.0;
    ProjectionGroupsByDimension(line, p, dims, 0);
    SumSingle(dims, i => GroupedTerm(line, p, 0, i), d);
    SumSingle(dims, i => At(row, i) * Cell(p, i, 0), d);
  }

  /** The loaders agree on a line, for every projection, exactly when repeated dimensions add up to the last value. */
  lemma LoadersAgreeExactly(row: Point, line: Line, dims: nat)
    requires InRange(line, dims) && IsDenseRow(row, line, dims) && LineSum(line) != 0.0
    ensures LastIsAll(line, dims) <==>
      forall projection: seq<Point>, c: int ::
        Sum(|line|, t => ProjectedTerm(line, projection, c, t)) == Product(row, projection, c)
  {
    hide ProjectedTerm, Sum, SumFor, LineSum, LastFor, Product;
    if LastIsAll(line, dims) {
      forall projection: seq<Point>, c: int
        ensures Sum(|line|, t => ProjectedTerm(line, projection, c, t)) == Product(row, projection, c)
      {
        ProjectionIsProduct(row, line, projection, dims, c);
      }
    }
    if forall projection: seq<Point>, c: int ::
         Sum(|line|, t => ProjectedTerm(line, projection, c, t)) == Product(row, projection, c) {
      forall d | 0 <= d < dims
        ensures SumFor(line, d) == LastFor(line, d)
      {
        UnitProjection(row, line, dims, d);
        CancelDivisor(SumFor(line, d), LastFor(line, d), LineSum(line));
      }
    }
  }

  lemma CancelDivisor(x: real, y: real, s: real)
    requires s != 0.0 && x / s == y / s
    ensures x == y
  {
    assert x == (x / s) * s && y == (y / s) * s;
  }

  /** A line that repeats no dimension. */
  predicate NoDimensionTwice(line: Line) {
    forall i, j :: 0 <= i < j < |line| ==> line[i].dimension != line[j].dimension
  }

  lemma {:induction false} DistinctDimensions(line: Line, n: nat, d: int)
    requires NoDimensionTwice(line) && n <= |line|
    ensures Sum(n, t => ValueFor(line, d, t)) == LastFor(line[..n], d)
  {
    if n > 0 {
      DistinctDimensions(line, n - 1, d);
      assert line[..n][..n - 1] == line[..n - 1];
      if line[n - 1].dimension == d + 1 {
        SumZero(n - 1, t => ValueFor(line, d, t));
      }
    }
  }

  /** Lines without repeated dimensions satisfy the condition. */
  lemma DistinctMeansAgree(line: Line, dims: nat)
    requires NoDimensionTwice(line)
    ensures LastIsAll(line, dims)
  {
    forall d | 0 <= d < dims
      ensures SumFor(line, d) == LastFor(line, d)
    {
      DistinctDimensions(line, |line|, d);
      assert line[..|line|] == line;
    }
  }

  // ---------- What normalising means ----------

  /** Without repeated dimensions, each token finds its value over the line's total in its cell. */
  lemma DenseCell(row: Point, line: Line, dims: nat, t: nat)
    requires IsDenseRow(row, line, dims) && InRange(line, dims) && NoDimensionTwice(line) && TokenTotal(line) != 0.0
    requires t < |line|
    ensures row[line[t].dimension - 1] * TokenTotal(line) == line[t].value
  {
    hide LineSum, LastFor, TokenTotal;
    LineSumIsTotal(line);
    LastForExact(line, line[t].dimension - 1);
    var x, y := line[t].value, TokenTotal(line);
    assert row[line[t].dimension - 1] == x / y;
  }

  /** The entries of a dense row stand in the ratio of the line's values. */
  lemma DenseRowRatio(row: Point, line: Line, dims: nat, t: nat, u: nat)
    requires IsDenseRow(row, line, dims) && InRange(line, dims) && NoDimensionTwice(line) && TokenTotal(line) != 0.0
    requires t < |line| && u < |line|
    ensures row[line[t].dimension - 1] * line[u].value == row[line[u].dimension - 1] * line[t].value
  {
    hide IsDenseRow, InRange, TokenTotal;
    DenseRowLength(row, line, dims);
    DenseCell(row, line, dims, t);
    DenseCell(row, line, dims, u);
    CrossMultiply(row[line[t].dimension - 1], row[line[u].dimension - 1], TokenTotal(line));
  }

  lemma DenseRowLength(row: Point, line: Line, dims: nat)
    requires IsDenseRow(row, line, dims) && InRange(line, dims)
    ensures |row| == dims && forall t :: 0 <= t < |line| ==> 1 <= line[t].dimension <= dims
  {
  }

  lemma CrossMultiply(a: real, b: real, s: real)
    ensures a * (b * s) == b * (a * s)
  {
  }

  lemma {:induction false} SumForPrefix(line: Line, dims: nat, n: nat)
    requires n <= |line| && InRange(line, dims)
    ensures Sum(dims, d => Sum(n, t => ValueFor(line, d, t))) == TokenTotal(line[..n])
  {
    hide ValueFor;
    if n == 0 {
      SumZero(dims, d => Sum(n, t => ValueFor(line, d, t)));
    } else {
      SumForPrefix(line, dims, n - 1);
      assert line[..n][..n - 1] == line[..n - 1];
      SumAdd(dims, d => Sum(n - 1, t => ValueFor(line, d, t)), d => ValueFor(line, d, n - 1),
             d => Sum(n, t => ValueFor(line, d, t)));
      OneToken(line, dims, n - 1);
    }
  }

  lemma OneToken(line: Line, dims: nat, t: nat)
    requires t < |line| && InRange(line, dims)
    ensures Sum(dims, d => ValueFor(line, d, t)) == line[t].value
  {
    SumSingle(dims, d => ValueFor(line, d, t), line[t].dimension - 1);
  }

  /** A dense row of a line whose dimensions add up to their last values sums to one. */
  lemma DenseRowSumsToOne(row: Point, line: Line, dims: nat)
    requires IsDenseRow(row, line, dims) && InRange(line, dims) && LastIsAll(line, dims) && TokenTotal(line) != 0.0
    ensures TotalWeight(row) == 1.0
  {
    hide LineSum, LastFor, TokenTotal, Sum, InRange;
    LineSumIsTotal(line);
    SumForPrefix(line, dims, |line|);
    assert line[..|line|] == line;
    SumCongruence(dims, d => SumFor(line, d), d => Sum(|line|, t => ValueFor(line, d, t)));
    WholeOverItself(row, dims, d => SumFor(line, d), TokenTotal(line));
  }

  // ---------- The two loaders ----------

  function SumOfLine(lines: seq<Line>, i: int): real {
    if 0 <= i < |lines| then LineSum(lines[i]) else 0.0
  }

  function FileSum(lines: seq<Line>): real {
    Sum(|lines|, i => SumOfLine(lines, i))
  }

  /** The first complaint about one of the first n lines. */
  function LineError(lines: seq<Line>, points: nat, dims: nat, n: nat): Option<LoadError>
    requires n <= |lines|
  {
    if n == 0 then None
    else if LineError(lines, points, dims, n - 1).Some? then LineError(lines, points, dims, n - 1)
    else if n > points then Some(MoreVectorsThanExpected)
    else if !InRange(lines[n - 1], dims) then Some(DimensionOutOfRange)
    else None
  }

  /** The complaint a file meets with, if any. */
  function Verdict(lines: seq<Line>, points: nat, dims: nat): Option<LoadError> {
    if LineError(lines, points, dims, |lines|).Some? then LineError(lines, points, dims, |lines|)
    else if |lines| != points then Some(WrongNumberOfVectors)
    else if LargestInFile(lines) != dims then Some(WrongNumberOfDimensions)
    else None
  }

  lemma {:induction false} NoLineError(lines: seq<Line>, points: nat, dims: nat, n: nat)
    requires n <= |lines|
    ensures LineError(lines, points, dims, n).None? <==> n <= points && AllInRange(lines, dims, n)
    ensures LineError(lines, points, dims, n) == Some(MoreVectorsThanExpected) <==>
            n > points && AllInRange(lines, dims, points)
    ensures LineError(lines, points, dims, n).Some? ==>
            LineError(lines, points, dims, n).value in {MoreVectorsThanExpected, DimensionOutOfRange}
  {
    hide InRange;
    if n > 0 {
      NoLineError(lines, points, dims, n - 1);
      assert AllInRange(lines, dims, n) <==> AllInRange(lines, dims, n - 1) && InRange(lines[n - 1], dims);
    }
  }

  /** A file is taken exactly when it has the announced shape, and rejected for the first complaint in reading order. */
  lemma AcceptedExactly(lines: seq<Line>, points: nat, dims: nat)
    ensures Verdict(lines, points, dims).None? <==> Acceptable(lines, points, dims)
    ensures Verdict(lines, points, dims) == Some(MoreVectorsThanExpected) <==>
            |lines| > points && AllInRange(lines, dims, points)
    ensures Verdict(lines, points, dims) == Some(DimensionOutOfRange) <==>
            !AllInRange(lines, dims, if |lines| > points then points else |lines|)
    ensures Verdict(lines, points, dims) == Some(WrongNumberOfVectors) <==>
            |lines| < points && AllInRange(lines, dims, |lines|)
    ensures Verdict(lines, points, dims) == Some(WrongNumberOfDimensions) <==>
            |lines| == points && AllInRange(lines, dims, |lines|) && dims > 0 && !MentionedInFile(lines, dims)
  {
    hide InRange, LargestInFile, MentionedInFile, LineError;
    NoLineError(lines, points, dims, |lines|);
    if AllInRange(lines, dims, |lines|) {
      LargestMeans(lines, dims);
    }
  }

  method SumLine(line: Line) returns (sum: real)
    ensures sum == LineSum(line)
  {
    sum := 0.0;
    for t := 0 to |line|
      invariant sum == Sum(t, i => ValueAt(line, i))
    {
      sum := sum + line[t].value;
    }
  }

  /** Fills a zeroed row, each token overwriting its dimension. */
  method LoadRow(line: Line, sum: real, dims: nat) returns (row: Option<Point>)
    requires sum == LineSum(line)
    ensures row.Some? <==> InRange(line, dims)
    ensures row.Some? ==> IsDenseRow(row.value, line, dims)
  {
    hide LineSum;
    var cells := seq(dims, _ => 0.0);
    for t := 0 to |line|
      invariant |cells| == dims && InRange(line[..t], dims)
      invariant forall d :: 0 <= d < dims ==> cells[d] == Over(LastFor(line[..t], d), sum)
    {
      if line[t].dimension > dims || line[t].dimension < 1 {
        return None;
      }
      assert line[..t + 1][..t] == line[..t];
      cells := cells[line[t].dimension - 1 := Over(line[t].value, sum)];
    }
    assert line[..|line|] == line;
    row := Some(cells);
  }

  /** Fills a zeroed row, each token adding its share of a projection row to every column. */
  method ProjectRow(line: Line, sum: real, projection: seq<Point>, cols: nat) returns (row: Option<Point>)
    requires sum == LineSum(line) && AllOfDimension(projection, cols)
    ensures row.Some? <==> InRange(line, |projection|)
    ensures row.Some? ==> IsProjectedRow(row.value, line, projection, cols)
  {
    hide LineSum;
    var cells := seq(cols, _ => 0.0);
    for t := 0 to |line|
      invariant |cells| == cols && InRange(line[..t], |projection|)
      invariant sum != 0.0 ==>
        forall c :: 0 <= c < cols ==> cells[c] == Sum(t, i => ProjectedTerm(line, projection, c, i))
    {
      var dim, val := line[t].dimension, Over(line[t].value, sum);
      if dim < 1 || dim > |projection| {
        return None;
      }
      ghost var before := cells;
      for c := 0 to cols
        invariant |cells| == cols
        invariant forall i :: 0 <= i < c ==> cells[i] == before[i] + val * projection[dim - 1][i]
        invariant forall i :: c <= i < cols ==> cells[i] == before[i]
      {
        cells := cells[c := cells[c] + val * projection[dim - 1][c]];
      }
      forall c | 0 <= c < cols && sum != 0.0
        ensures cells[c] == Sum(t + 1, i => ProjectedTerm(line, projection, c, i))
      {
        assert ProjectedTerm(line, projection, c, t) == val * projection[dim - 1][c];
      }
    }
    row := Some(cells);
  }

  ghost predicate DenseRows(rows: seq<Point>, lines: seq<Line>, dims: nat) {
    |rows| <= |lines| && forall i :: 0 <= i < |rows| ==> IsDenseRow(rows[i], lines[i], dims)
  }

  ghost predicate ProjectedRows(rows: seq<Point>, lines: seq<Line>, projection: seq<Point>, cols: nat) {
    |rows| <= |lines| && forall i :: 0 <= i < |rows| ==> IsProjectedRow(rows[i], lines[i], projection, cols)
  }

  /** Every row's weight is its line's share of the file's sum. */
  ghost predicate SharesOfFile(weights: seq<real>, lines: seq<Line>) {
    && |weights| == |lines|
    && (FileSum(lines) != 0.0 ==>
          forall i :: 0 <= i < |weights| ==> weights[i] == SumOfLine(lines, i) / FileSum(lines))
  }

  /** The first complaint in reading order, or the dense rows and the weights. */
  ghost predicate IsDenseLoad(result: Result<Matrix>, lines: seq<Line>, points: nat, dims: nat) {
    && Verdict(lines, points, dims) == (if result.Loaded? then None else Some(result.error))
    && (result.Loaded? ==>
          && |result.value.rows| == |lines| && DenseRows(result.value.rows, lines, dims)
          && SharesOfFile(result.value.weights, lines))
  }

  /** The first complaint in reading order, or the projected rows and the weights. */
  ghost predicate IsProjectedLoad(result: Result<Matrix>, lines: seq<Line>, projection: seq<Point>, points: nat,
                                  cols: nat)
  {
    && Verdict(lines, points, |projection|) == (if result.Loaded? then None else Some(result.error))
    && (result.Loaded? ==>
          && |result.value.rows| == |lines| && ProjectedRows(result.value.rows, lines, projection, cols)
          && SharesOfFile(result.value.weights, lines))
  }

  method LargestOf(line: Line, seen: int) returns (largest: int)
    requires seen >= 0
    ensures largest == if LargestDimension(line) > seen then LargestDimension(line) else seen
  {
    largest := seen;
    for t := 0 to |line|
      invariant largest == if LargestDimension(line[..t]) > seen then LargestDimension(line[..t]) else seen
    {
      assert line[..t + 1][..t] == line[..t];
      if line[t].dimension > largest {
        largest := line[t].dimension;
      }
    }
    assert line[..|line|] == line;
  }

  method NormalizeWeights(rowWeights: seq<real>, totalWeight: real, ghost lines: seq<Line>) returns (weights: seq<real>)
    requires |rowWeights| == |lines| && totalWeight == FileSum(lines)
    requires forall i :: 0 <= i < |lines| ==> rowWeights[i] == SumOfLine(lines, i)
    ensures SharesOfFile(weights, lines)
  {
    hide FileSum, SumOfLine;
    weights := [];
    for row := 0 to |rowWeights|
      invariant |weights| == row
      invariant forall i :: 0 <= i < row ==> weights[i] == Over(SumOfLine(lines, i), totalWeight)
    {
      weights := weights + [Over(rowWeights[row], totalWeight)];
    }
  }

  lemma FilePrefix(lines: seq<Line>, n: nat)
    requires n < |lines|
    ensures var here, rest := LargestDimension(lines[n]), LargestInFile(lines[..n]);
      LargestInFile(lines[..n + 1]) == if here > rest then here else rest
  {
    assert lines[..n + 1][..n] == lines[..n];
  }

  lemma {:induction false} ErrorStays(lines: seq<Line>, points: nat, dims: nat, n: nat, m: nat)
    requires n <= m <= |lines| && LineError(lines, points, dims, n).Some?
    ensures LineError(lines, points, dims, m) == LineError(lines, points, dims, n)
    decreases m
  {
    if n < m {
      ErrorStays(lines, points, dims, n, m - 1);
    }
  }

  /** Loads the vectors as they are. */
  method LoadFVFile(lines: seq<Line>, points: nat, dims: nat) returns (result: Result<Matrix>)
    ensures IsDenseLoad(result, lines, points, dims)
  {
    hide LineSum, IsDenseRow, LargestDimension, LargestInFile, InRange, SumOfLine;
    var rows, rowWeights, totalWeight, largest := [], [], 0.0, 0;
    FileStarts(lines);
    for point := 0 to |lines|
      invariant |rows| == |rowWeights| == point && DenseRows(rows, lines, dims)
      invariant forall i :: 0 <= i < point ==> rowWeights[i] == SumOfLine(lines, i)
      invariant totalWeight == Sum(point, i => SumOfLine(lines, i))
      invariant largest == LargestInFile(lines[..point]) >= 0
      invariant LineError(lines, points, dims, point).None?
    {
      if point >= points {
        ErrorStays(lines, points, dims, point + 1, |lines|);
        return Rejected(MoreVectorsThanExpected);
      }
      var sum := SumLine(lines[point]);
      LineSumAt(lines, point);
      largest := LargestOf(lines[point], largest);
      FilePrefix(lines, point);
      rowWeights, totalWeight := rowWeights + [sum], totalWeight + sum;
      var row := LoadRow(lines[point], sum, dims);
      if row.None? {
        ErrorStays(lines, points, dims, point + 1, |lines|);
        return Rejected(DimensionOutOfRange);
      }
      rows := rows + [row.value];
    }
    assert lines[..|lines|] == lines;
    if |lines| != points {
      return Rejected(WrongNumberOfVectors);
    }
    if largest != dims {
      return Rejected(WrongNumberOfDimensions);
    }
    var weights := NormalizeWeights(rowWeights, totalWeight, lines);
    result := Loaded(Matrix(rows, weights));
  }

  lemma FileStarts(lines: seq<Line>)
    ensures LargestInFile(lines[..0]) == 0
  {
  }

  lemma LineSumAt(lines: seq<Line>, i: nat)
    requires i < |lines|
    ensures SumOfLine(lines, i) == LineSum(lines[i])
  {
  }

  /** Loads the vectors multiplied by the projection matrix, one token at a time. */
  method LoadAndProjectFVFile(lines: seq<Line>, projection: seq<Point>, points: nat, cols: nat)
    returns (result: Result<Matrix>)
    requires AllOfDimension(projection, cols)
    ensures IsProjectedLoad(result, lines, projection, points, cols)
  {
    hide LineSum, IsProjectedRow, LargestDimension, LargestInFile, InRange, SumOfLine;
    var rows, rowWeights, totalWeight, largest := [], [], 0.0, 0;
    FileStarts(lines);
    for point := 0 to |lines|
      invariant |rows| == |rowWeights| == point && ProjectedRows(rows, lines, projection, cols)
      invariant forall i :: 0 <= i < point ==> rowWeights[i] == SumOfLine(lines, i)
      invariant totalWeight == Sum(point, i => SumOfLine(lines, i))
      invariant largest == LargestInFile(lines[..point]) >= 0
      invariant LineError(lines, points, |projection|, point).None?
    {
      if point >= points {
        ErrorStays(lines, points, |projection|, point + 1, |lines|);
        return Rejected(MoreVectorsThanExpected);
      }
      var sum := SumLine(lines[point]);
      LineSumAt(lines, point);
      rowWeights, totalWeight := rowWeights + [sum], totalWeight + sum;
      largest := LargestOf(lines[point], largest);
      FilePrefix(lines, point);
      var row := ProjectRow(lines[point], sum, projection, cols);
      if row.None? {
        ErrorStays(lines, points, |projection|, point + 1, |lines|);
        return Rejected(DimensionOutOfRange);
      }
      rows := rows + [row.value];
    }
    assert lines[..|lines|] == lines;
    if |lines| != points {
      return Rejected(WrongNumberOfVectors);
    }
    if largest != |projection| {
      return Rejected(WrongNumberOfDimensions);
    }
    var weights := NormalizeWeights(rowWeights, totalWeight, lines);
    result := Loaded(Matrix(rows, weights));
  }

  /** The row weights sum to one. */
  lemma SharesSumToOne(weights: seq<real>, lines: seq<Line>)
    requires SharesOfFile(weights, lines) && FileSum(lines) != 0.0
    ensures TotalWeight(weights) == 1.0
  {
    hide SumOfLine;
    WholeOverItself(weights, |lines|, i => SumOfLine(lines, i), FileSum(lines));
  }

  /** The weights of two rows stand in the ratio of the totals of their lines. */
  lemma WeightRatio(weights: seq<real>, lines: seq<Line>, i: nat, j: nat)
    requires SharesOfFile(weights, lines) && FileSum(lines) != 0.0 && i < |lines| && j < |lines|
    ensures weights[i] * TokenTotal(lines[j]) == weights[j] * TokenTotal(lines[i])
  {
    hide FileSum, LineSum, TokenTotal;
    LineSumIsTotal(lines[i]);
    LineSumIsTotal(lines[j]);
    ShareRatio(LineSum(lines[i]), LineSum(lines[j]), FileSum(lines));
  }

  lemma ShareRatio(x: real, y: real, s: real)
    requires s != 0.0
    ensures (x / s) * y == (y / s) * x
  {
    Regroup(x, s, y);
  }

  lemma LoadedInRange(lines: seq<Line>, points: nat, dims: nat, i: nat)
    requires Verdict(lines, points, dims).None? && i < |lines|
    ensures InRange(lines[i], dims)
  {
    AcceptedExactly(lines, points, dims);
  }

  /**
   * The loaders accept and reject together, with the same complaint and the
   * same weights, and a line on which the values of every dimension add up to
   * its last one has the product as its projected row.
   */
  lemma FusedLoadIsLoadThenProject(lines: seq<Line>, projection: seq<Point>, points: nat, cols: nat,
                                   dense: Result<Matrix>, projected: Result<Matrix>)
    requires IsDenseLoad(dense, lines, points, |projection|)
    requires IsProjectedLoad(projected, lines, projection, points, cols)
    ensures dense.Loaded? <==> projected.Loaded?
    ensures dense.Rejected? ==> projected.error == dense.error
    ensures dense.Loaded? && FileSum(lines) != 0.0 ==> projected.value.weights == dense.value.weights
    ensures dense.Loaded? ==> |dense.value.rows| == |projected.value.rows| == |lines|
    ensures dense.Loaded? ==> forall i, c :: 0 <= i < |lines| && 0 <= c < cols && Agrees(lines[i], |projection|) ==>
      |projected.value.rows[i]| == cols && projected.value.rows[i][c] == Product(dense.value.rows[i], projection, c)
  {
    hide Product, ProjectedTerm, LineSum, Verdict, LastIsAll, FileSum, SumOfLine;
    if dense.Loaded? {
      forall i, c | 0 <= i < |lines| && 0 <= c < cols && Agrees(lines[i], |projection|)
        ensures |projected.value.rows[i]| == cols
        ensures projected.value.rows[i][c] == Product(dense.value.rows[i], projection, c)
      {
        LoadedInRange(lines, points, |projection|, i);
        assert IsProjectedRow(projected.value.rows[i], lines[i], projection, cols);
        ProjectionIsProduct(dense.value.rows[i], lines[i], projection, |projection|, c);
      }
    }
  }
}
