/** Clustering a dataset and writing its simpoints, from the initial centers to the output files. */
module Pipeline {
  import opened Sums
  import opened Points
  import opened Powers
  import opened Options
  import opened Nearest
  import opened Lloyd
  import opened Convergence
  import opened KMeansRun
  import opened Coverage
  import opened SimpointFiles

  /** A simpoints file and its weights file, with the selection of clusters they were written for. */
  datatype Files = Files(mask: seq<bool>, rows: seq<(int, nat)>, weightRows: seq<(real, nat)>)

  /** What a run leaves behind: the files of all clusters with weight, and of the largest if fewer are wanted. */
  datatype Saved = Saved(all: Files, largest: Option<Files>)

  /** The files written for a clustering and a requested share of the weight. */
  ghost predicate FilesFor(data: Matrix, centers: Matrix, pct: real, f: Files)
    requires |centers.rows| == |centers.weights| > 0
  {
    && |f.mask| == |centers.weights| && IsGreedySelection(centers.weights, pct, f.mask)
    && SimpointRows(f.rows, f.mask, Labels(data.rows, centers.rows), Dists(data.rows, centers.rows))
    && WeightRows(f.weightRows, f.mask, centers.weights)
  }

  /** Every row names a member of its cluster and that cluster's weight. */
  ghost predicate RowsFit(data: Matrix, labels: seq<nat>, f: Files)
    requires |labels| == |data.rows|
  {
    && |f.rows| == |f.weightRows|
    && (forall r :: 0 <= r < |f.rows| ==> 0 <= f.rows[r].0 < |labels| && labels[f.rows[r].0] == f.rows[r].1)
    && (forall r :: 0 <= r < |f.rows| ==> f.weightRows[r].1 == f.rows[r].1)
    && (forall r :: 0 <= r < |f.rows| ==> f.weightRows[r].0 == ClusterWeight(data, labels, f.rows[r].1, |data.rows|))
  }

  /** What files that represent the run tell: fitting rows, and exact estimates of every metric constant on clusters. */
  ghost predicate FaithfulFiles(data: Matrix, centers: Matrix, f: Files)
    requires |centers.rows| == |centers.weights| > 0
  {
    var labels := Labels(data.rows, centers.rows);
    && RowsFit(data, labels, f)
    && (forall v: int -> real :: ConstantOnClusters(v, labels) ==>
          Estimate(f.rows, f.weightRows, v) == WholeRun(data, v))
  }

  // ---------- When the files are faithful ----------

  lemma OwnWeightsAreFaithful(data: Matrix, centers: Matrix, f: Files)
    requires UnitWeight(data) && OwnWeights(data, centers) && FilesFor(data, centers, 1.0, f)
    ensures FaithfulFiles(data, centers, f)
  {
    hide IsGreedySelection, WeightRows, IsRepresentative, ConstantOnClusters, ClusterWeight, Estimate, WholeRun, Label,
         MaskWeight, TotalWeight, SimpointRows;
    var dists := Dists(data.rows, centers.rows);
    OwnWeightsAreUnit(data, centers);
    FullCoverageWeighsOne(centers.weights, f.mask);
    OwnWeightFiles(data, centers, 1.0, f.mask, dists, f.rows, f.weightRows);
    forall v: int -> real | ConstantOnClusters(v, Labels(data.rows, centers.rows))
      ensures Estimate(f.rows, f.weightRows, v) == WholeRun(data, v)
    {
      SimpointsEstimateExactly(data, centers, f.mask, dists, f.rows, f.weightRows, v);
    }
  }

  /** Fitting rows give every selected cluster its own weight. */
  lemma SelectedHaveOwnWeight(data: Matrix, centers: Matrix, f: Files, c: nat)
    requires UnitWeight(centers) && |centers.rows| > 0 && FilesFor(data, centers, 1.0, f)
    requires RowsFit(data, Labels(data.rows, centers.rows), f) && Selected(f.mask, c)
    ensures centers.weights[c] == ClusterWeight(data, Labels(data.rows, centers.rows), c, |data.rows|)
  {
    hide IsGreedySelection, ClusterWeight, MaskWeight, TotalWeight, IsRepresentative, Label;
    FullCoverageWeighsOne(centers.weights, f.mask);
    SelectedListIsExact(f.mask, |f.mask|);
    var r :| 0 <= r < |f.rows| && SelectedList(f.mask, |f.mask|)[r] == c;
  }

  /** Weights that sum to the same and never exceed are equal. */
  lemma EqualFromSums(a: seq<real>, b: seq<real>, c: nat)
    requires |a| == |b| && c < |a| && TotalWeight(a) == TotalWeight(b)
    requires forall i :: 0 <= i < |a| ==> a[i] <= b[i]
    ensures a[c] == b[c]
  {
    var gap := i => At(b, i) - At(a, i);
    SumAdd(|a|, i => At(a, i), gap, i => At(b, i));
    SumAtLeastTerm(|a|, gap, c);
  }

  lemma FaithfulHasOwnWeights(data: Matrix, centers: Matrix, f: Files)
    requires UnitWeight(data) && UnitWeight(centers) && |centers.rows| > 0 && FilesFor(data, centers, 1.0, f)
    requires RowsFit(data, Labels(data.rows, centers.rows), f)
    ensures OwnWeights(data, centers)
  {
    hide FilesFor, RowsFit, ClusterWeight, TotalWeight, Label;
    var k, labels := |centers.rows|, Labels(data.rows, centers.rows);
    var own := CentersOf(data, labels, k, 0).weights;
    MassConserved(data, labels, k, 0);
    SelectionLength(data, centers, 1.0, f);
    forall c: nat | c < k
      ensures centers.weights[c] <= own[c]
    {
      if f.mask[c] {
        SelectedHaveOwnWeight(data, centers, f, c);
      } else {
        UnselectedIsWeightless(data, centers, f, c);
        CenterBalancesCluster(data, labels, c, 0);
      }
    }
    forall c: nat | c < k
      ensures centers.weights[c] == own[c]
    {
      EqualFromSums(centers.weights, own, c);
    }
  }

  lemma SelectionLength(data: Matrix, centers: Matrix, pct: real, f: Files)
    requires |centers.rows| == |centers.weights| > 0 && FilesFor(data, centers, pct, f)
    ensures |f.mask| == |centers.weights|
  {
  }

  lemma UnselectedIsWeightless(data: Matrix, centers: Matrix, f: Files, c: nat)
    requires UnitWeight(centers) && |centers.rows| > 0 && FilesFor(data, centers, 1.0, f)
    requires c < |f.mask| && !f.mask[c]
    ensures centers.weights[c] == 0.0
  {
    hide IsGreedySelection, MaskWeight, TotalWeight;
    FullCoverageWeighsOne(centers.weights, f.mask);
  }

  /** For any centers: the files represent the run exactly when every center carries its own cluster's weight. */
  lemma FaithfulExactly(data: Matrix, centers: Matrix, f: Files)
    requires UnitWeight(data) && UnitWeight(centers) && |centers.rows| > 0 && FilesFor(data, centers, 1.0, f)
    ensures FaithfulFiles(data, centers, f) <==> OwnWeights(data, centers)
  {
    hide FilesFor, RowsFit, TotalWeight, OwnWeights, ConstantOnClusters, Estimate, WholeRun;
    if OwnWeights(data, centers) {
      OwnWeightsAreFaithful(data, centers, f);
    } else if FaithfulFiles(data, centers, f) {
      FaithfulHasOwnWeights(data, centers, f);
    }
  }

  /** A cluster with weight but without a member gets a row that names no interval. */
  lemma OrphanRow(data: Matrix, centers: Matrix, f: Files, c: nat) returns (r: nat)
    requires UnitWeight(centers) && |centers.rows| > 0 && FilesFor(data, centers, 1.0, f)
    requires c < |centers.weights| && centers.weights[c] > 0.0 && c !in Labels(data.rows, centers.rows)
    ensures r < |f.rows| == |f.weightRows|
    ensures f.rows[r] == (-1, c) && f.weightRows[r] == (centers.weights[c], c)
    ensures !FaithfulFiles(data, centers, f)
  {
    hide IsGreedySelection, ClusterWeight, MaskWeight, TotalWeight, Label, Estimate, WholeRun, ConstantOnClusters;
    FullCoverageWeighsOne(centers.weights, f.mask);
    SelectedListIsExact(f.mask, |f.mask|);
    assert Selected(f.mask, c);
    r :| 0 <= r < |f.rows| && SelectedList(f.mask, |f.mask|)[r] == c;
  }

  // ---------- Whole runs ----------

  /** Two labellings give every one of k clusters the same weight. */
  ghost predicate SameClusterWeights(data: Matrix, a: seq<nat>, b: seq<nat>, k: nat) {
    forall c :: 0 <= c < k ==> ClusterWeight(data, a, c, |data.rows|) == ClusterWeight(data, b, c, |data.rows|)
  }

  ghost predicate BreaksWithin(data: Matrix, start: Matrix, maxIterations: int)
    requires |start.rows| == |start.weights| > 0
  {
    exists u: nat :: u < maxIterations && FixedAt(data, start, u)
  }

  /**
   * The runs whose files are faithful: those that reach a fixed point within
   * the limit, and those whose last two labellings weigh the clusters alike.
   */
  ghost predicate FaithfulRun(data: Matrix, start: Matrix, maxIterations: int)
    requires |start.rows| == |start.weights| > 0
  {
    || BreaksWithin(data, start, maxIterations)
    || (maxIterations <= 1 && OwnWeights(data, start))
    || (maxIterations > 1
        && SameClusterWeights(data, LabelsAt(data, start, maxIterations - 2), LabelsAt(data, start, maxIterations - 1),
                              |start.rows|))
  }

  /** The centers that a run of k-means from `start` ends on. */
  ghost predicate EndsOn(data: Matrix, start: Matrix, maxIterations: int, iter: nat, centers: Matrix)
    requires |start.rows| == |start.weights| > 0
  {
    && (forall u :: 0 <= u < iter ==> !FixedAt(data, start, u))
    && (iter < maxIterations ==> FixedAt(data, start, iter) && centers == Generation(data, start, iter + 1))
    && (iter >= maxIterations ==>
          && iter == (if maxIterations <= 0 then 0 else maxIterations)
          && centers == Generation(data, start, if maxIterations <= 0 then 0 else maxIterations - 1))
  }

  /** A computed generation carries the weights of the labelling before it. */
  lemma GenerationWeights(data: Matrix, start: Matrix, t: nat)
    requires |start.rows| == |start.weights| > 0
    ensures forall c :: 0 <= c < |start.rows| ==>
      Generation(data, start, t + 1).weights[c] == ClusterWeight(data, LabelsAt(data, start, t), c, |data.rows|)
  {
    hide ClusterWeight, Labels;
  }

  /** The centers a run ends on carry their own weights exactly for faithful runs. */
  lemma RunHasOwnWeights(data: Matrix, start: Matrix, maxIterations: int, iter: nat, centers: Matrix)
    requires |start.rows| == |start.weights| > 0 && EndsOn(data, start, maxIterations, iter, centers)
    ensures OwnWeights(data, centers) <==> FaithfulRun(data, start, maxIterations)
  {
    hide ClusterWeight, Labels, Step;
    if iter < maxIterations {
      assert BreaksWithin(data, start, maxIterations);
      assert centers == Step(data, Generation(data, start, iter).rows);
      assert Labels(data.rows, centers.rows) == LabelsAt(data, start, iter);
      GenerationWeights(data, start, iter);
    } else if maxIterations > 1 {
      GenerationWeights(data, start, maxIterations - 2);
    }
  }

  /** The centers a run ends on weigh one if the data do and, without an iteration, the initial ones do. */
  lemma RunHasUnitWeight(data: Matrix, start: Matrix, dim: nat, maxIterations: int, iter: nat, centers: Matrix)
    requires ValidRun(data, start, dim) && UnitWeight(data) && EndsOn(data, start, maxIterations, iter, centers)
    requires BreaksWithin(data, start, maxIterations) || maxIterations > 1 || UnitWeight(start)
    ensures UnitWeight(centers) && |centers.rows| > 0
  {
    hide TotalWeight, Step, Generation;
    var t := if iter < maxIterations then iter + 1 else LimitGeneration(maxIterations);
    if t > 0 {
      GenerationHasUnitWeight(data, start, dim, t);
    } else {
      StartIsFirst(data, start);
    }
  }

  lemma StartIsFirst(data: Matrix, start: Matrix)
    requires |start.rows| == |start.weights| > 0
    ensures Generation(data, start, 0) == start
  {
  }

  lemma GenerationHasUnitWeight(data: Matrix, start: Matrix, dim: nat, t: nat)
    requires ValidRun(data, start, dim) && UnitWeight(data) && t > 0
    ensures UnitWeight(Generation(data, start, t))
  {
    hide TotalWeight, ClusterWeight;
    GenerationsConserve(data, start, dim, t);
    GenerationWeights(data, start, t - 1);
    forall c | 0 <= c < |start.rows|
      ensures Generation(data, start, t).weights[c] >= 0.0
    {
      CenterBalancesCluster(data, LabelsAt(data, start, t - 1), c, 0);
    }
  }

  /** The files of a run are faithful exactly if the run is. */
  lemma RunIsFaithful(data: Matrix, start: Matrix, dim: nat, maxIterations: int, iter: nat, centers: Matrix, f: Files)
    requires WellFormed(data, dim) && WellFormed(start, dim) && |start.rows| > 0 && UnitWeight(data)
    requires EndsOn(data, start, maxIterations, iter, centers)
    requires |centers.rows| == |centers.weights| > 0 && FilesFor(data, centers, 1.0, f)
    ensures maxIterations > 1 || UnitWeight(start) ==>
      (FaithfulFiles(data, centers, f) <==> FaithfulRun(data, start, maxIterations))
    ensures BreaksWithin(data, start, maxIterations) ==> FaithfulFiles(data, centers, f)
  {
    hide EndsOn, FilesFor, FaithfulFiles, TotalWeight, SameClusterWeights, OwnWeights, BreaksWithin;
    RunHasOwnWeights(data, start, maxIterations, iter, centers);
    if BreaksWithin(data, start, maxIterations) || maxIterations > 1 || UnitWeight(start) {
      RunHasUnitWeight(data, start, dim, maxIterations, iter, centers);
      FaithfulExactly(data, centers, f);
    }
  }

  /** The program gives initial centers their own weights, so a run without an effective iteration is faithful. */
  lemma InitialWeightsAreFaithful(data: Matrix, start: Matrix, maxIterations: int)
    requires UnitWeight(data) && |start.rows| == |start.weights| > 0 && maxIterations <= 1
    requires forall c :: 0 <= c < |start.rows| ==>
      start.weights[c]
      == ClusterWeight(data, Labels(data.rows, start.rows), c, |data.rows|) / TotalWeight(data.weights)
    ensures UnitWeight(start) && FaithfulRun(data, start, maxIterations)
  {
    hide TotalWeight, ClusterWeight, BreaksWithin;
    OwnWeightsAreUnit(data, start);
  }

  /** A limit above k^n is never reached. */
  lemma UnlimitedRunBreaks(data: Matrix, start: Matrix, dim: nat, maxIterations: int)
    requires ValidRun(data, start, dim) && maxIterations > Power(|start.rows|, |data.rows|)
    ensures BreaksWithin(data, start, maxIterations)
  {
    hide FixedAt, Power;
    var t := ReachesFixedPoint(data, start, dim);
  }

  // ---------- The largest clusters ----------

  /** There is at most one representative. */
  lemma RepresentativeUnique(labels: seq<nat>, dists: seq<real>, c: nat, s: int, t: int)
    requires |labels| == |dists| && IsRepresentative(labels, dists, c, s) && IsRepresentative(labels, dists, c, t)
    ensures s == t
  {
  }

  /** The files of the largest clusters repeat rows of the full ones, and reach the requested share if any files can. */
  lemma LargestAreRowsOfAll(data: Matrix, centers: Matrix, pct: real, all: Files, largest: Files, r: nat)
    returns (s: nat)
    requires |centers.rows| == |centers.weights| > 0 && pct <= 1.0 && r < |largest.rows|
    requires FilesFor(data, centers, 1.0, all) && FilesFor(data, centers, pct, largest)
    ensures s < |all.rows| && all.rows[s] == largest.rows[r]
  {
    hide IsGreedySelection, IsRepresentative, Label, WeightRows;
    var c := largest.rows[r].1;
    SelectedListIsExact(largest.mask, |largest.mask|);
    SelectedListIsExact(all.mask, |all.mask|);
    MoreCoverageSelectsMore(centers.weights, pct, largest.mask, 1.0, all.mask, c);
    s :| 0 <= s < |all.rows| && SelectedList(all.mask, |all.mask|)[s] == c;
    RepresentativeUnique(Labels(data.rows, centers.rows), Dists(data.rows, centers.rows), c,
                         all.rows[s].0, largest.rows[r].0);
  }

  /** A faithful run's files of the largest clusters err at most by the uncovered weight, which stays within 1 - pct. */
  lemma LargestEstimateError(data: Matrix, centers: Matrix, pct: real, f: Files, v: int -> real, lo: real, hi: real)
    requires UnitWeight(data) && OwnWeights(data, centers) && pct <= 1.0 && FilesFor(data, centers, pct, f)
    requires ConstantOnClusters(v, Labels(data.rows, centers.rows))
    requires forall i :: 0 <= i < |data.rows| ==> lo <= v(i) <= hi
    ensures var share := MaskWeight(centers.weights, f.mask);
      && share >= pct
      && lo * (1.0 - share) <= WholeRun(data, v) - share * Estimate(f.rows, f.weightRows, v) <= hi * (1.0 - share)
  {
    hide IsGreedySelection, IsRepresentative, ConstantOnClusters, Estimate, WholeRun, Label, MaskWeight, TotalWeight,
         ClusterWeight, SimpointRows, WeightRows;
    OwnWeightsAreUnit(data, centers);
    PositiveCarriesAll(centers.weights);
    ReachesCoverage(centers.weights, pct, f.mask);
    CoveredEstimateError(data, centers, pct, f.mask, Dists(data.rows, centers.rows), f.rows, f.weightRows, v, lo, hi);
  }

  // ---------- The program ----------

  lemma SelectionHasWeight(weights: seq<real>, pct: real, mask: seq<bool>, c: nat)
    requires |mask| == |weights| && IsGreedySelection(weights, pct, mask) && Selected(mask, c)
    ensures MaskWeight(weights, mask) > 0.0
  {
    forall i | 0 <= i < |mask|
      ensures SelectedWeight(weights, mask, i) >= 0.0
    {
      if Selected(mask, i) {
        SelectsOnlyPositive(weights, pct, mask, i);
      }
    }
    SelectsOnlyPositive(weights, pct, mask, c);
    SumAtLeastTerm(|mask|, i => SelectedWeight(weights, mask, i), c);
  }

  /** Writes the simpoints and the weights of one selection. */
  method SaveSelection(mask: seq<bool>, dists: seq<real>, labels: seq<nat>, ghost data: Matrix, centers: Matrix,
                       ghost pct: real) returns (f: Files)
    requires |centers.rows| == |centers.weights| > 0 && IsGreedySelection(centers.weights, pct, mask)
    requires labels == Labels(data.rows, centers.rows) && dists == Dists(data.rows, centers.rows)
    ensures FilesFor(data, centers, pct, f)
  {
    hide IsGreedySelection, DistSq, Label, MaskWeight;
    GreedyLength(centers.weights, pct, mask);
    var rows := SaveSimpoints(mask, dists, labels, |centers.rows|);
    forall c: nat | Selected(mask, c)
      ensures MaskWeight(centers.weights, mask) != 0.0
    {
      SelectionHasWeight(centers.weights, pct, mask, c);
    }
    var weightRows := SaveSimpointWeights(mask, centers.weights);
    f := Files(mask, rows, weightRows);
  }

  /** Writes all output of a run; a negative share aborts before anything is written. */
  method SaveFiles(data: Matrix, centers: Matrix, coveragePct: real) returns (saved: Option<Saved>)
    requires |centers.rows| == |centers.weights| > 0
    ensures saved.None? <==> coveragePct < 0.0
    ensures saved.Some? ==> FilesFor(data, centers, 1.0, saved.value.all)
    ensures saved.Some? ==> (saved.value.largest.Some? <==> coveragePct < 1.0)
    ensures saved.Some? && coveragePct < 1.0 ==> FilesFor(data, centers, coveragePct, saved.value.largest.value)
  {
    hide FilesFor;
    var labels, dists := FindLabelsAndDists(data.rows, centers.rows);
    var nonEmpty := GetLargestClusters(1.0, centers.weights);
    var largest := nonEmpty;
    if coveragePct < 1.0 {
      largest := GetLargestClusters(coveragePct, centers.weights);
      if largest.None? {
        return None;
      }
    }
    var all := SaveSelection(nonEmpty.value, dists, labels, data, centers, 1.0);
    if coveragePct < 1.0 {
      var fewer := SaveSelection(largest.value, dists, labels, data, centers, coveragePct);
      return Some(Saved(all, Some(fewer)));
    }
    return Some(Saved(all, None));
  }

  /**
   * Clusters from the given initial centers and writes the files. For weights
   * that sum to one the files represent the run exactly for faithful runs.
   */
  method ClusterAndSave(data: Dataset, centers: Dataset, maxIterations: int, coveragePct: real, ghost dim: nat)
    returns (saved: Option<Saved>)
    requires data != centers
    requires WellFormed(data.Value(), dim) && WellFormed(centers.Value(), dim) && |centers.rows| > 0
    modifies centers
    ensures |centers.rows| == |centers.weights| == |old(centers.rows)|
    ensures saved.None? <==> coveragePct < 0.0
    ensures saved.Some? ==> FilesFor(data.Value(), centers.Value(), 1.0, saved.value.all)
    ensures saved.Some? ==> (saved.value.largest.Some? <==> coveragePct < 1.0)
    ensures saved.Some? && coveragePct < 1.0 ==>
      FilesFor(data.Value(), centers.Value(), coveragePct, saved.value.largest.value)
    ensures saved.Some? && UnitWeight(data.Value()) && (maxIterations > 1 || UnitWeight(old(centers.Value()))) ==>
      (FaithfulFiles(data.Value(), centers.Value(), saved.value.all)
       <==> FaithfulRun(data.Value(), old(centers.Value()), maxIterations))
    ensures saved.Some? && UnitWeight(data.Value()) ==>
      BreaksWithin(data.Value(), old(centers.Value()), maxIterations) ==>
      FaithfulFiles(data.Value(), centers.Value(), saved.value.all)
  {
    hide FilesFor, FaithfulFiles, FaithfulRun, BreaksWithin, UnitWeight, Cost, TotalWeight, Step, Generation, FixedAt;
    ghost var d, start := data.Value(), centers.Value();
    var iter := RunKMeans(data, centers, maxIterations, dim);
    assert EndsOn(d, start, maxIterations, iter, centers.Value());
    saved := SaveFiles(data.Value(), centers.Value(), coveragePct);
    if saved.Some? && UnitWeight(d) {
      RunIsFaithful(d, start, dim, maxIterations, iter, centers.Value(), saved.value.all);
    }
  }
}
