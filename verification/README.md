# Verified models of SimPoint clustering and gem5 utilities

This project models, in Dafny, the clustering engine of SimPoint 3.2 (k-means,
its seeding, the search for the number of clusters, the selection and output of
simpoints, sampling, vector loading and the random number generator) and four
gem5 utilities (the pipeline viewer's print queue, the checkpoint upgrader, the
varint message framing and the copyright year lists), and proves what they
compute. `dafny verify dfyconfig.toml` verifies the whole project.

## How the model relates to the programs

- `double` and `float` are modelled as `real`: rounding, infinities and NaN do
  not occur. Distances stay squared; the square root in the label pass is
  monotone, so it changes no comparison.
- The `DBL_MAX` start value of the nearest-center loops is an absent value that
  every distance is below.
- Mutable objects keep their form: `KMeansRun.Dataset`, `KSearch.Simpoint`,
  `Ran2.Random`, `PipeView.PrintQueue`, `CptUpgrader.Checkpoint`,
  `Protolib.OutFile` and `Protolib.InFile` are classes whose methods update
  fields in place. Pure values (points, matrices, labellings) are sequences and
  datatypes.
- Random draws, BIC scores, file contents (as token lists, instruction records
  or byte sequences) and the iteration order of Python sets are parameters or
  arbitrary choices.
- Where the programs divide by zero they compute NaN or an infinity without
  noticing. The contracts of the loaders say nothing about those cells (a
  frequency vector whose values cancel), and a dataset of total weight zero is
  excluded by a precondition.

## Main results

- **k-means** (`Lloyd`, `Convergence`, `KMeansRun`): the two-buffer loop refines
  pure iteration for both buffer parities; every iteration lowers the distortion
  by at least the weighted squared movement of the centers, although emptied
  clusters jump to the origin; no labelling repeats, so the loop breaks within
  k^n + 1 passes; the centers returned for any limit never cost more than the
  initial ones.
- **Seeding** (`FurthestFirst`): the covering radius is at most twice that of any
  rival set of as many centers.
- **Choice of k** (`KSearch`): for every sequence of scores the window-halving
  search makes at most floor(log2 max_k) + 3 runs and repeats no appended k, and
  each further k is half way to the neighbouring probed value on the side that the
  scores so far point to; the kept run is the first with the smallest k whose score
  lies far enough up the range. For a monotone score it keeps the same k as
  clustering for every k would.
- **Output** (`Coverage`, `SimpointFiles`, `Pipeline`, `LimitedRun`): greedy coverage
  uses the fewest clusters of any selection reaching the share. For any centers of
  total weight one the files represent the run (every row names a member and the
  weight of its cluster, and the weighted simpoints reproduce the average of every
  metric constant on clusters) exactly when each center carries the weight of its
  own cluster. For whole runs that means: a fixed point is reached within the
  iteration limit, or the last two labellings weigh the clusters alike. A run cut
  off by its limit returns the generation *before* the last one computed, and
  four points show it writing the row `-1` for a cluster of weight one half. Files
  of the largest clusters only err by at most the weight left out.
- **Generator** (`Ran2`): Schrage's steps equal the modular products without
  32-bit overflow, and a draw replaces exactly the table entry that the leading
  part of the previous value selects. For every seed, and every content of the memory the table lies
  in, all fields stay in range for all draws exactly when the seed differs from 1
  and, up to its sign, from both moduli, or is 1 and the memory happens to hold a
  table.
- **Loading** (`FrequencyVectors`): loading and projecting in one pass agrees with
  loading and then multiplying, for every projection, exactly when the values of
  each repeated dimension add up to the last one.
- **Print queue** (`InstOrder`, `PipeView`): whatever the thresholds, no queued
  instruction is lost or duplicated and equal numbers stay in order, and every
  print leaves exactly the `min_threshold` largest instructions seen so far. The
  visible output is the filtered stable sort of the whole trace exactly when the
  early end cuts off nothing printable and no print lets a printable instruction
  out before a printable one with a smaller number arrives. What is printed is
  always exactly what the bounds ask for of the part of the trace that is read.
- **Checkpoint upgrader** (`CptUpgrader`): the outcome does not depend on set
  iteration order. For any mix of upgraders and downgraders it succeeds exactly
  when the pending migrations have depths (one more than the deepest addition they
  wait for) and depend on no unknown tag and on none removed at a smaller depth.
- **Round trips** (`Protolib`, `CopyrightYears`): both with the exact condition
  under which reading undoes writing; decoding is described for arbitrary bytes and
  year lists for any white space people put into them; a set of years survives exactly when all its
  neighbouring years have four digits.

## Where code and documentation disagree

- `gem5/util/cpt_upgrader.py:56-61` says that depending on a tag with a downgrader
  means insisting on that tag being removed first. The code at lines 144-148
  insists on it being *present*. The model follows the code, and
  `CptUpgrader.DoneExactly` has the exact condition for success. It differs from
  there being an order of single migrations in both directions:
  `CptUpgrader.ScheduleMayBeStuck` and `CptUpgrader.MutualRemovalSucceeds`.
- `gem5/util/cpt_upgrader.py:60-61` says that a tag can be used only once. The code
  does not check it: the last script with a tag replaces the others.
- `gem5/util/o3-pipeview.py:49-50` says that instructions out of place by more than
  `min_threshold` will appear out of order. They need not: a trace of at most
  `max_threshold` instructions is always printed in order
  (`PipeView.ShortTraceIsSafe`). `PipeView.AllInOrderExactly` has the exact condition.
- `SimPoint.3.2/analysiscode/Utilities.h:151-156` says that positive seeds are made
  negative. Seed 1 is not (line 158); see `Ran2.SeedOneSkipsSeeding`.

## Model

| member | source | states |
|---|---|---|
| Nearest.Label | SimPoint.3.2/analysiscode/KMeans.cpp:138-147 | the label is the first center at minimal squared distance |
| Nearest.FirstNearestUnique | SimPoint.3.2/analysiscode/KMeans.cpp:138-147 | that description determines the label |
| Nearest.NearestPlain | SimPoint.3.2/analysiscode/KMeans.cpp:133-147 | the low-dimension loop finds that label |
| Nearest.NearestUnrolled | SimPoint.3.2/analysiscode/KMeans.cpp:158-174 | the unrolled loop that abandons partial distances finds the same label |
| Nearest.NearestWithDist | SimPoint.3.2/analysiscode/KMeans.cpp:209-219 | the label pass finds the same label, and its squared distance |
| Nearest.FindLabelsAndDists | SimPoint.3.2/analysiscode/KMeans.cpp:204-221 | labels and squared distances of all points |
| Lloyd.NearestLabelsAreCheapest | SimPoint.3.2/analysiscode/KMeans.cpp:136-147 | no labelling costs less than the nearest-center one |
| Lloyd.CenterBalancesCluster | SimPoint.3.2/analysiscode/KMeans.cpp:184-187 | weight times center is the cluster's moment, also for clusters left undivided |
| Lloyd.MassConserved | SimPoint.3.2/analysiscode/KMeans.cpp:149-153 | the center weights sum to the total data weight |
| Lloyd.MomentConserved | SimPoint.3.2/analysiscode/KMeans.cpp:176-187 | the weighted sum of the centers is the weighted sum of the points, per coordinate |
| Lloyd.AssignCostDropsByMovement | SimPoint.3.2/analysiscode/KMeans.cpp:128-187 | for a fixed labelling, moving to the means lowers the cost by exactly the weighted squared movement |
| Lloyd.StepLowersCost | SimPoint.3.2/analysiscode/KMeans.cpp:128-187 | one iteration lowers the distortion by at least the weighted squared movement |
| Convergence.EmptyClusterGoesToOrigin | SimPoint.3.2/analysiscode/KMeans.cpp:184-187 | a cluster without weight is reset to the origin |
| Convergence.GenerationsConserve | SimPoint.3.2/analysiscode/KMeans.cpp:127-194 | every computed generation carries the total weight and the weighted sums of the data |
| Convergence.StepDescends | SimPoint.3.2/analysiscode/KMeans.cpp:127-194 | an iteration that changes the centers lowers (cost, centers off the origin) lexicographically |
| Convergence.GenerationsDescend | SimPoint.3.2/analysiscode/KMeans.cpp:127-194 | later generations of an unfinished run lie strictly below earlier ones |
| Convergence.LabellingsDistinct | SimPoint.3.2/analysiscode/KMeans.cpp:127-194 | an unfinished run never labels the points the same way twice |
| Convergence.ReachesFixedPoint | SimPoint.3.2/analysiscode/KMeans.cpp:127-194 | a fixed point is reached after at most k^n iterations |
| Convergence.GenerationsNeverCostMore | SimPoint.3.2/analysiscode/KMeans.cpp:127-194 | no generation costs more than an earlier one |
| KMeansRun.Dataset.Copy | SimPoint.3.2/analysiscode/Dataset.cpp:84-86 | a copy has the rows and weights of the original |
| KMeansRun.Dataset.Fill | SimPoint.3.2/analysiscode/Dataset.cpp:109-114 | every cell takes the value, shape and weights stay |
| KMeansRun.Dataset.MultAndAdd | SimPoint.3.2/analysiscode/Datapoint.cpp:160-165 | one row gains the scaled point, the others stay |
| KMeansRun.Dataset.DivideRow | SimPoint.3.2/analysiscode/Datapoint.cpp:151-158 | one row is divided, the others stay |
| KMeansRun.Dataset.EqualTo | SimPoint.3.2/analysiscode/Dataset.cpp:89-106 | true exactly when all coordinates agree, whatever the weights |
| KMeansRun.ClearCenters | SimPoint.3.2/analysiscode/KMeans.cpp:128-131 | the spare buffer starts as the sums over no points |
| KMeansRun.Accumulate | SimPoint.3.2/analysiscode/KMeans.cpp:133-182 | one pass adds every point to the moment and weight of its nearest center's cluster |
| KMeansRun.Normalize | SimPoint.3.2/analysiscode/KMeans.cpp:184-187 | dividing the moments by positive weights gives the cluster means |
| KMeansRun.Iterate | SimPoint.3.2/analysiscode/KMeans.cpp:128-187 | the loop body leaves the next generation, with its weights, in the spare buffer |
| KMeansRun.RunKMeans | SimPoint.3.2/analysiscode/KMeans.cpp:117-201 | on a break: a fixed point with the weights of its own clusters; at the limit: generation max(0, limit - 1); never dearer than the start; with a limit above k^n always a break |
| KMeansRun.RunOutcome | SimPoint.3.2/analysiscode/KMeans.cpp:126-198 | an unbroken prefix has at most k^n iterations and none of its generations costs more than the start |
| Points.DistSqExtends | SimPoint.3.2/analysiscode/KMeans.cpp:138-143 | the squared distance grows by one squared difference per coordinate |
| FurthestFirst.MaxNdx | SimPoint.3.2/analysiscode/Datapoint.cpp:117-139 | the first maximum among the positions from start up to end, or up to the end of the sequence for -1; -1 exactly when there is none |
| FurthestFirst.UpdateDistances | SimPoint.3.2/analysiscode/KMeans.cpp:104-109 | the distances are to the nearest of the centers chosen so far |
| FurthestFirst.InitializeFurthestFirst | SimPoint.3.2/analysiscode/KMeans.cpp:90-114 | the first center is the drawn point, each later one the first point furthest from its predecessors |
| FurthestFirst.GreedyCentersAreSpread | SimPoint.3.2/analysiscode/KMeans.cpp:103-113 | the centers are pairwise at least as far apart as any point is from all of them |
| FurthestFirst.FurthestFirstApproximation | SimPoint.3.2/analysiscode/KMeans.h:93-97 | if any k rivals cover the data within squared distance r, the chosen centers do within 4r |
| Evaluation.Distortion | SimPoint.3.2/analysiscode/KMeans.cpp:236-268 | total and per-cluster weighted distortion over the average weight; the parts add up to the total |
| Evaluation.EqualWeightsDistortion | SimPoint.3.2/analysiscode/KMeans.cpp:246-260 | for equal weights the distortion is the plain sum of squared distances |
| Evaluation.ClusterCostsAddUp | SimPoint.3.2/analysiscode/KMeans.cpp:247-256 | the clusters' costs sum to the labelling's cost |
| Evaluation.InitialWeights | SimPoint.3.2/analysiscode/Simpoint.cpp:334-354 | each initial center carries its cluster's share of all weight; the shares sum to one |
| KSearch.FindBestRun | SimPoint.3.2/analysiscode/Simpoint.cpp:496-516 | the first run with the smallest k among those whose score lies at least the given fraction up from the smallest to the largest score, -1 exactly when none does |
| KSearch.ThresholdIsReached | SimPoint.3.2/analysiscode/Simpoint.cpp:505 | a percentage in [0,1] puts the threshold between the extreme scores |
| KSearch.DecisionIsRight | SimPoint.3.2/analysiscode/Simpoint.cpp:849-860 | for a monotone score the search goes up exactly when its last k misses the threshold of the whole range |
| KSearch.ProbedStep | SimPoint.3.2/analysiscode/Simpoint.cpp:857-874 | probed values lie outside the open window, so an appended k is new |
| KSearch.HalvedStep | SimPoint.3.2/analysiscode/Simpoint.cpp:862-873 | every run halves the window |
| KSearch.FloorLog2Exact | SimPoint.3.2/analysiscode/Simpoint.cpp:765 | the logarithm of the run bound, rounded down |
| KSearch.AppendedBySide | SimPoint.3.2/analysiscode/Simpoint.cpp:857-873 | for any scores an appended k lies below its predecessor if the first largest score came no later than the first smallest, and otherwise above it exactly when the last score is below the fraction between the two |
| KSearch.StopsAtNeighbour | SimPoint.3.2/analysiscode/Simpoint.cpp:870-873 | when the list ends, the next probed value on the side the scores point to, if there is one, is a neighbour of the last k |
| KSearch.Simpoint.SearchClusterings | SimPoint.3.2/analysiscode/Simpoint.cpp:736-876 | probes only 1..max_k, appends no k twice, at most floor(log2 max_k)+3 runs; for any scores each further k is half way from the last one to the next probed value on the side its scores point to; for a monotone score the least k reaching the threshold is probed |
| KSearch.Simpoint.ChosenK | SimPoint.3.2/analysiscode/Simpoint.cpp:848-875 | for any scores the k of the kept run of the search; for a monotone score the least k reaching the threshold |
| KSearch.SearchAgreesWithExhaustive | SimPoint.3.2/analysiscode/Simpoint.cpp:848-875 | searching and clustering for every k in 1..max_k keep the same k |
| Coverage.SortHeaviestFirst | SimPoint.3.2/analysiscode/Simpoint.cpp:524-529 | a permutation of the clusters in descending (weight, index) order |
| Coverage.OrderUnique | SimPoint.3.2/analysiscode/Simpoint.cpp:524-529 | there is only one such order |
| Coverage.GetLargestClusters | SimPoint.3.2/analysiscode/Simpoint.cpp:518-547 | rejects shares outside [0,1], else takes the heaviest clusters while coverage is missing and weight positive |
| Coverage.SelectsOnlyPositive | SimPoint.3.2/analysiscode/Simpoint.cpp:537-543 | no cluster without weight is selected |
| Coverage.HeavierFirst | SimPoint.3.2/analysiscode/Simpoint.cpp:524-543 | a cluster is selected only if every heavier one is, and every one of equal weight with a larger index |
| Coverage.GreedyIsFewest | SimPoint.3.2/analysiscode/Simpoint.cpp:531-543 | no selection reaching the share uses fewer clusters |
| Coverage.ReachesCoverage | SimPoint.3.2/analysiscode/Simpoint.cpp:531-543 | the share is reached exactly when the positive weights suffice |
| Coverage.MoreCoverageSelectsMore | SimPoint.3.2/analysiscode/Simpoint.cpp:537-543 | a larger share selects a superset |
| SimpointFiles.ClosestMembers | SimPoint.3.2/analysiscode/Simpoint.cpp:552-560 | per cluster the first closest member, -1 exactly for clusters without members |
| SimpointFiles.SaveSimpoints | SimPoint.3.2/analysiscode/Simpoint.cpp:549-571 | one row per selected cluster in ascending order, naming its representative |
| SimpointFiles.SaveSimpointWeights | SimPoint.3.2/analysiscode/Simpoint.cpp:573-591 | one row per selected cluster with its share of the selected weight |
| SimpointFiles.FullCoverageSelectsAll | SimPoint.3.2/analysiscode/Simpoint.cpp:670 | coverage 1 of weights summing to one selects exactly the clusters with weight |
| SimpointFiles.FullCoverageWeighsOne | SimPoint.3.2/analysiscode/Simpoint.cpp:670 | full coverage of weights summing to one leaves no weight out |
| SimpointFiles.OwnWeightFiles | SimPoint.3.2/analysiscode/Simpoint.cpp:646-709 | for centers with their own clusters' weights and any coverage no row is -1, rows name members of their clusters, weights are the clusters' shares of the selected weight |
| SimpointFiles.FixedPointHasOwnWeights | SimPoint.3.2/analysiscode/KMeans.cpp:184-198 | a fixed point carries the weights of its own clusters |
| SimpointFiles.EstimateOfSelected | SimPoint.3.2/analysiscode/Simpoint.cpp:646-720 | the estimate times the selected weight is what the selected clusters contribute to the whole run |
| SimpointFiles.SimpointsEstimateExactly | SimPoint.3.2/analysiscode/Simpoint.cpp:646-709 | with full coverage and own weights the weighted sum over simpoints is the whole-run average of any metric constant on clusters |
| SimpointFiles.CoveredEstimateError | SimPoint.3.2/analysiscode/Simpoint.cpp:671-720 | with less coverage the estimate misses the whole run by no more than the extremes of the metric times the uncovered weight |
| Pipeline.SaveFiles | SimPoint.3.2/analysiscode/Simpoint.cpp:646-720 | a negative coverage aborts before anything is written; else the files of all clusters with weight, and of the largest clusters exactly for a coverage below one |
| Pipeline.FaithfulExactly | SimPoint.3.2/analysiscode/Simpoint.cpp:573-591 | for any centers of total weight one the files represent the run exactly when every center carries its own cluster's weight |
| Pipeline.OrphanRow | SimPoint.3.2/analysiscode/Simpoint.cpp:549-591 | a cluster with weight and no member gets a row that names no interval |
| Pipeline.RunHasOwnWeights | SimPoint.3.2/analysiscode/KMeans.cpp:126-198 | the centers a run returns carry their own weights exactly if it breaks within the limit, or the initial centers do and it makes at most one iteration, or its last two labellings weigh the clusters alike |
| Pipeline.RunIsFaithful | SimPoint.3.2/analysiscode/KMeans.cpp:126-198 | the same condition decides whether the files of the run represent it |
| Pipeline.InitialWeightsAreFaithful | SimPoint.3.2/analysiscode/Simpoint.cpp:334-354 | with the weights given to initial centers every run of at most one iteration is faithful |
| Pipeline.UnlimitedRunBreaks | SimPoint.3.2/analysiscode/KMeans.cpp:127-194 | a limit above k^n is never reached |
| Pipeline.LargestAreRowsOfAll | SimPoint.3.2/analysiscode/Simpoint.cpp:687-698 | the simpoints of the largest clusters are rows of the full simpoints file |
| Pipeline.LargestEstimateError | SimPoint.3.2/analysiscode/Simpoint.cpp:671-720 | the largest clusters reach the requested share, and their estimate errs at most by the uncovered weight times the extremes |
| Pipeline.ClusterAndSave | SimPoint.3.2/analysiscode/Simpoint.cpp:782-789 | for every iteration limit the saved files represent the run exactly if it is faithful, in particular whenever it breaks within the limit |
| LimitedRun.LimitedRunOrphansCluster | SimPoint.3.2/analysiscode/KMeans.cpp:189-198 | four points on which every pair of files a run limited to two iterations writes has a row with weight one half and representative -1 |
| Sampling.CumulativeWeights | SimPoint.3.2/analysiscode/Simpoint.cpp:368-377 | cumulative weights in descending order, the last forced to one |
| Sampling.CumulativeIsSearchable | SimPoint.3.2/analysiscode/Simpoint.cpp:374-377 | non-negative weights of any total give a table the search terminates on |
| Sampling.FindSample | SimPoint.3.2/analysiscode/Simpoint.cpp:384-396 | the slot search terminates and returns an index whose slot holds the draw |
| Sampling.SlotUnique | SimPoint.3.2/analysiscode/Simpoint.cpp:388-396 | strictly inside a slot no other index can be returned |
| Sampling.SlotWidth | SimPoint.3.2/analysiscode/Simpoint.cpp:374-377 | a slot is as wide as its interval is heavy |
| Sampling.SampleIntervals | SimPoint.3.2/analysiscode/Simpoint.cpp:379-402 | the intervals taken are those the draws hit, each counted once, up to the requested number |
| Sampling.CopySample | SimPoint.3.2/analysiscode/Simpoint.cpp:409-419 | the sampled rows in order, weights scaled by the share taken |
| Sampling.SampleWeightsSumToOne | SimPoint.3.2/analysiscode/Simpoint.cpp:411-419 | the scaled weights sum to one |
| FrequencyVectors.LoadRow | SimPoint.3.2/analysiscode/Utilities.cpp:155-168 | unless the line sums to zero each cell holds the last value of its dimension over the line's sum; fails exactly on a dimension out of range |
| FrequencyVectors.ProjectRow | SimPoint.3.2/analysiscode/Utilities.cpp:225-248 | unless the line sums to zero each column holds the sum over tokens of share times projection entry; fails exactly on a dimension out of range |
| FrequencyVectors.LoadFVFile | SimPoint.3.2/analysiscode/Utilities.cpp:126-186 | the first error in reading order, or dense rows and each line's share of the file |
| FrequencyVectors.LoadAndProjectFVFile | SimPoint.3.2/analysiscode/Utilities.cpp:188-266 | the same errors, or projected rows and the same shares |
| FrequencyVectors.LineSumIsTotal | SimPoint.3.2/analysiscode/Utilities.cpp:146-150 | what a line is divided by is the total of its tokens' values |
| FrequencyVectors.LastForExact | SimPoint.3.2/analysiscode/Utilities.cpp:155-168 | the last token of a dimension decides, and without one the cell is zero |
| FrequencyVectors.DenseRowRatio | SimPoint.3.2/analysiscode/Utilities.cpp:155-168 | without repeated dimensions the entries of a dense row stand in the ratio of the line's values |
| FrequencyVectors.DenseRowSumsToOne | SimPoint.3.2/analysiscode/Utilities.cpp:146-168 | a dense row sums to one if the values of each dimension add up to its last one |
| FrequencyVectors.WeightRatio | SimPoint.3.2/analysiscode/Utilities.cpp:152-184 | two row weights stand in the ratio of the totals of their lines |
| FrequencyVectors.AcceptedExactly | SimPoint.3.2/analysiscode/Utilities.cpp:137-180 | a file is accepted exactly when it has the announced number of vectors, all dimensions in range and the last one in use; else which error it meets |
| FrequencyVectors.SharesSumToOne | SimPoint.3.2/analysiscode/Utilities.cpp:182-185 | the row weights of a file of non-zero sum sum to one |
| FrequencyVectors.ProjectionGroupsByDimension | SimPoint.3.2/analysiscode/Utilities.cpp:230-248 | projecting on the fly adds up repeated dimensions |
| FrequencyVectors.LoadersAgreeExactly | SimPoint.3.2/analysiscode/Utilities.cpp:167-246 | the loaders agree on a line of non-zero sum for every projection exactly when each dimension's values sum to its last one |
| FrequencyVectors.DistinctMeansAgree | SimPoint.3.2/analysiscode/Utilities.cpp:167-246 | a line that repeats no dimension meets that condition |
| FrequencyVectors.FusedLoadIsLoadThenProject | SimPoint.3.2/analysiscode/Utilities.cpp:126-266 | the loaders accept and reject together, with the same error and the same weights, and on lines meeting the condition the projected row is the dense row times the projection |
| Ran2.Step1IsModularProduct | SimPoint.3.2/analysiscode/Utilities.cpp:303-305 | the first update is the product modulo IM1, all intermediates within 32 bits |
| Ran2.Step2IsModularProduct | SimPoint.3.2/analysiscode/Utilities.cpp:306-308 | the second update is the product modulo IM2, all intermediates within 32 bits |
| Ran2.Step1Zero | SimPoint.3.2/analysiscode/Utilities.cpp:303-305 | zero is reached only from zero or the modulus |
| Ran2.WarmClosedForm | SimPoint.3.2/analysiscode/Utilities.cpp:295-300 | n updates multiply by IA1^n modulo IM1 |
| Ran2.DrawKeepsUsable | SimPoint.3.2/analysiscode/Utilities.cpp:291-312 | for every seed but 1 the combined value is in 1..IMM1 and the table index in range |
| Ran2.FirstDraw | SimPoint.3.2/analysiscode/Utilities.cpp:291-312 | the first draw starts the generator exactly for admissible seeds |
| Ran2.RunsForever | SimPoint.3.2/analysiscode/Utilities.cpp:286-315 | for every seed and every memory content all fields stay in range for all draws, so seeding happens at most once, exactly for admissible seeds and, for seed 1, sound memory |
| Ran2.NthFollowsSequences | SimPoint.3.2/analysiscode/Utilities.cpp:286-315 | after n draws the two sequences have taken 40 + n and n steps |
| Ran2.SeedMagnitude | SimPoint.3.2/analysiscode/Utilities.cpp:291-294 | seeding starts from the seed's magnitude, from one for seed zero |
| Ran2.SeededTable | SimPoint.3.2/analysiscode/Utilities.cpp:295-301 | after seeding entry j of the table is IA1^(40-j) times the seed modulo IM1 |
| Ran2.DrawShuffles | SimPoint.3.2/analysiscode/Utilities.cpp:303-312 | a draw multiplies both sequences by their factors, replaces exactly the entry selected by iy and combines the replaced entry with the second sequence modulo IMM1 |
| Ran2.SeedOneSkipsSeeding | SimPoint.3.2/analysiscode/Utilities.h:157-162 | on every memory content seed 1 leaves the table as memory had it, except for the entry the first draw replaces |
| Ran2.SeedOneExactly | SimPoint.3.2/analysiscode/Utilities.cpp:291-312 | with seed 1 the first draw starts the generator exactly on sound memory |
| Ran2.SeedOneOnTableValues | SimPoint.3.2/analysiscode/Utilities.cpp:291-312 | memory holding numbers of the table's range is sound exactly when no entry behind the first is zero |
| Ran2.Random.Seed | SimPoint.3.2/analysiscode/Utilities.cpp:292-301 | the warm-up fills the table with successive states from its end |
| Ran2.Random.RandFloat | SimPoint.3.2/analysiscode/Utilities.cpp:286-315 | one draw of the combined generator over IM1, capped just below one |
| Ran2.Random.RandInt | SimPoint.3.2/analysiscode/Utilities.h:169 | the draw times INT_MAX rounded down, in 0..INT_MAX - 1 |
| InstOrder.SortIsSorted | gem5/util/o3-pipeview.py:242 | the sort orders by sequence number and permutes |
| InstOrder.SortIsStable | gem5/util/o3-pipeview.py:242 | instructions of equal number keep their order |
| InstOrder.StableOrderUnique | gem5/util/o3-pipeview.py:242 | these two properties determine the sorted sequence |
| PipeView.SkippedIsUnprintable | gem5/util/o3-pipeview.py:94-125 | what is skipped before the start lies outside the bounds |
| PipeView.DriftIsNotCut | gem5/util/o3-pipeview.py:60-64 | the early end loses nothing if later records fall behind by at most the drift in ticks and the upper threshold in numbers |
| PipeView.LateRecordIsCut | gem5/util/o3-pipeview.py:159-176 | beyond that a printable record behind the one that ends the reading is lost |
| PipeView.RegionExactly | gem5/util/o3-pipeview.py:94-176 | what is queued reaches from the start to the first record far behind the bounds, or to the end |
| PipeView.FilterCounts | gem5/util/o3-pipeview.py:245-268 | an instruction is printed as often as it occurs if its number, fetch tick and retirement are as asked for, and never otherwise |
| PipeView.FinalConserves | gem5/util/o3-pipeview.py:212-244 | for all thresholds every queued instruction leaves once and equal numbers leave in order |
| PipeView.PrintLeavesLargest | gem5/util/o3-pipeview.py:241-244 | whatever was printed before, a print leaves exactly the min_threshold largest instructions seen so far |
| PipeView.SafeRunIsInOrder | gem5/util/o3-pipeview.py:45-50 | as long as every print is safe what is out is in order and before all that follows |
| PipeView.UnsafePrintIsSeen | gem5/util/o3-pipeview.py:45-50 | one unsafe print puts the visible output out of order, whatever follows |
| PipeView.OutputExactly | gem5/util/o3-pipeview.py:45-50 | for all bounds the output is the filtered stable sort of the queued instructions exactly when no print is unsafe |
| PipeView.WholeTraceExactly | gem5/util/o3-pipeview.py:154-207 | the output is the filtered stable sort of the whole trace exactly when besides nothing printable is cut off |
| PipeView.SafelyBufferedExactly | gem5/util/o3-pipeview.py:45-50 | without bounds safety can be counted: at every print at most min_threshold of those seen have a larger number than any still to come |
| PipeView.SafelyBufferedIsVisiblySafe | gem5/util/o3-pipeview.py:245-268 | bounds only help |
| PipeView.AllInOrderExactly | gem5/util/o3-pipeview.py:45-50 | all instructions leave in the stable order exactly under that count |
| PipeView.BoundedDisplacementIsSafe | gem5/util/o3-pipeview.py:49-50 | a displacement of at most min_threshold places is safe for every max_threshold |
| PipeView.ShortTraceIsSafe | gem5/util/o3-pipeview.py:45-50 | a trace that never overfills the queue is safe whatever its displacement |
| PipeView.LateArrivalIsUnsafe | gem5/util/o3-pipeview.py:49-50 | for every pair of thresholds a late enough instruction is printed out of order |
| PipeView.PrintQueue.PrintInsts | gem5/util/o3-pipeview.py:231-277 | the surplus of the sorted queue is taken off in order and filtered, the rest stays |
| PipeView.PrintQueue.QueueInst | gem5/util/o3-pipeview.py:212-227 | the instruction is appended and the queue emptied down to the lower threshold when over the upper one |
| PipeView.PrintQueue.SkipToStart | gem5/util/o3-pipeview.py:94-125 | the first record fetched once the starting tick, or else the starting number, has been reached, said of the records' ticks and numbers |
| PipeView.PrintQueue.ProcessTrace | gem5/util/o3-pipeview.py:69-207 | every record between the start and the early end leaves the queue once and is printed exactly if the bounds ask for it; the output is the filtered stable sort of the whole trace exactly when nothing printable is cut off and no print is unsafe |
| CptUpgrader.Ready | gem5/util/cpt_upgrader.py:144-148 | ready exactly when every dependency is among the tags |
| CptUpgrader.FindReady | gem5/util/cpt_upgrader.py:259 | the ready migrations of a round |
| CptUpgrader.Checkpoint.Update | gem5/util/cpt_upgrader.py:150-158 | adds or removes the tag and records the migration |
| CptUpgrader.Checkpoint.RunRound | gem5/util/cpt_upgrader.py:265-267 | in any order a round has the same effect and runs each migration once |
| CptUpgrader.Checkpoint.Migrate | gem5/util/cpt_upgrader.py:255-269 | the outcome is the order-free one; success runs each pending migration once, layer by layer, and leaves (tags + upgrades) - downgrades |
| CptUpgrader.MigratedIsComplete | gem5/util/cpt_upgrader.py:257 | a migrated checkpoint needs no further migration |
| CptUpgrader.DepthUnique | gem5/util/cpt_upgrader.py:258-269 | depths are determined by the scripts and the tags |
| CptUpgrader.LayerIsReady | gem5/util/cpt_upgrader.py:259 | when its layer comes up a migration finds all its dependencies among the tags |
| CptUpgrader.RoundIsLayer | gem5/util/cpt_upgrader.py:259 | a round runs exactly one layer |
| CptUpgrader.DoneExactly | gem5/util/cpt_upgrader.py:258-269 | for any mix of upgraders and downgraders, success exactly when the pending migrations have depths, depend on no unknown tag and on none removed at a smaller depth |
| CptUpgrader.UpgradesSucceedExactlyWhenPossible | gem5/util/cpt_upgrader.py:258-269 | with upgraders only, success exactly when such an order exists |
| CptUpgrader.AbsentDowngradeBlocks | gem5/util/cpt_upgrader.py:144-148 | depending on a downgraded tag that is absent makes the migration fail |
| CptUpgrader.EarlyRemovalBlocks | gem5/util/cpt_upgrader.py:259-269 | so does depending on a pending addition and on a tag removed in the first round |
| CptUpgrader.ScheduleMayBeStuck | gem5/util/cpt_upgrader.py:259-269 | three scripts that could be run one by one and on which the rounds get stuck |
| CptUpgrader.MutualRemovalSucceeds | gem5/util/cpt_upgrader.py:259-269 | two scripts on which the rounds succeed although no order of single migrations respects the dependencies |
| CptLoading.ByTagIsLast | gem5/util/cpt_upgrader.py:142 | every tag is entered once, under the last script that uses it |
| CptLoading.LoadAll | gem5/util/cpt_upgrader.py:165-192 | succeeds exactly when all names of the entered scripts are known; a script then depends on what it names and on the scripts that point at it |
| Protolib.DecodeVarint | gem5/util/protolib.py:112-128 | decoding adds the number in place and stops right behind it |
| Protolib.VarintRoundTrip | gem5/util/protolib.py:100-128 | every 63-bit number decodes to its low 32 bits, hence to itself exactly below 2^32 |
| Protolib.DecodeExactly | gem5/util/protolib.py:100-128 | for any bytes: the end of the file, too many bytes after ten continued ones, or the base-128 number narrowed to 32 bits with its sign |
| Protolib.FrameRoundTrip | gem5/util/protolib.py:131-144 | a stored frame is read back unless it is empty |
| Protolib.TruncatedFrame | gem5/util/protolib.py:131-144 | a frame cut off by the end of the file yields the bytes that are left |
| Protolib.NegativeLength | gem5/util/protolib.py:131-144 | a length that decodes to a negative number yields everything up to the end |
| Protolib.StreamRoundTrip | gem5/util/protolib.py:131-168 | reading a written stream gives the messages before the first empty one, all of them exactly if none is empty |
| Protolib.OutFile.EncodeVarint32 | gem5/util/protolib.py:147-159 | appends the varint of the number |
| Protolib.OutFile.EncodeMessage | gem5/util/protolib.py:162-168 | appends the length and the message |
| Protolib.OutFile.EncodeMessages | gem5/util/protolib.py:162-168 | writing messages one after the other gives the stream of their frames |
| Protolib.InFile.DecodeVarint32 | gem5/util/protolib.py:100-128 | the number, end of file or too many bytes, and the position behind it |
| Protolib.InFile.DecodeMessage | gem5/util/protolib.py:131-144 | the next message and the position behind it, or none |
| Protolib.InFile.DecodeMessages | gem5/util/protolib.py:131-144 | reading until none is left gives the stream's messages |
| CopyrightYears.ProcessDates | gem5/util/find_copyrights.py:115-132 | the years of all comma-separated items together; for items written with any white space the years and spans they stand for, signs included, and nothing for words |
| CopyrightYears.PaddedItem | gem5/util/find_copyrights.py:112-130 | white space around an item and around the hyphen of a span does not change its years |
| CopyrightYears.GroupedYear | gem5/util/find_copyrights.py:127 | an underscore between digits is passed over |
| CopyrightYears.DateStr | gem5/util/find_copyrights.py:195-220 | ascending ranges, maximal and non-adjacent, holding exactly the years; digits, hyphens and commas only |
| CopyrightYears.RangeRoundTrip | gem5/util/find_copyrights.py:112-130 | a range is read back whole exactly when it is one year or has four-digit ends; otherwise its last year is lost |
| CopyrightYears.RangesRoundTrip | gem5/util/find_copyrights.py:115-132 | reading undoes printing exactly when every range of two or more years has four-digit ends |
| CopyrightYears.DatesRoundTrip | gem5/util/find_copyrights.py:115-132 | a set of years printed as maximal ranges is restored exactly when all its neighbouring years have four digits; no year is ever invented |
| CopyrightYears.PrintAndRead | gem5/util/find_copyrights.py:195-220 | printing a set and reading it back: that condition, met by every set of four-digit years |

## Left out

- Floating-point rounding, overflow to infinity and NaN, and the value of the BIC score (`KMeans.cpp:270-305`), which enters as an arbitrary function of run and k.
- The choice between sampling and using the whole dataset (`Simpoint.cpp:363-364`, `420-422`).
- Sampling.CopySample: takes the dataset to have a column; without one the program never sets the sample's weights, because it sets them inside the column loop.
- Termination of the outer sampling loop (`Simpoint.cpp:381`), which holds only with probability one: the model takes a finite list of draws.
- Text and binary file formats, gzip pipes, logging, command-line options and the `-k` range parser.
- `initializeRandomly`, `loadInitialCentersFromLabels`, `findWeights` and the random projection matrix: they add nothing harder than the members above.
- Reading and executing upgrader scripts, the chain of legacy versions (`cpt_upgrader.py:171-175`) and the conversion of old version numbers.
- Drawing a pipeline line (`print_inst`), the header, and traces whose records are not complete: a trace is a list of instruction records, each from its fetch line to its retire line.
- Pipeline.ClusterAndSave: clusters the dataset it saves; with sampling the program clusters a part of it, to which `Pipeline.FaithfulExactly` still applies.
- CptLoading.LoadAll: a tag used by an upgrader and a downgrader stays in both of the program's tag sets; the model keeps the kind of the last script.
- The protobuf payload codec: a message is its bytes, and a parse error is not modelled.
- Non-ASCII digits and white space in year lists, and negative years.
- The remaining gem5 configuration, build and plotting scripts: thin wrappers around code that is not part of this model.
