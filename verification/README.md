# DMAE clustering metrics in Dafny

A model of the two evaluation metrics of DMAE (Dissimilarity Mixture
Autoencoder for deep clustering), with proofs about them.

- **Unsupervised classification accuracy.** It takes the true class ids `y_true` and the cluster ids `y_pred` of the same samples.
  - The dimension is `D = max(y_pred.max(), y_true.max()) + 1`.
  - It counts the pairs into a D-by-D matrix `w`, where `w[p][t]` is the number of samples predicted `p` whose truth is `t`.
  - It solves the linear assignment problem on the cost matrix `w.max() - w`.
  - The result is the count matched along that assignment, divided by the number of samples.
  - The result is proved to be the share of samples classified correctly under the best one-to-one renaming of cluster ids to class ids.
- **L0 norm of soft assignments.** For each sample (a row of cluster scores), it counts the scores strictly above a threshold. The default threshold is `1e-7`.

Modules, one file each:

| file | module | contents |
|---|---|---|
| `seqs.dfy` | `Seqs` | maximum of a sequence, duplicate-freedom, removing one element |
| `permutations.dfy` | `Permutations` | permutations of 0..d-1: identity, composition, inverse, pigeonhole, growing and shrinking the dimension |
| `matrices.dfy` | `Matrices` | square integer matrices: zeros, increment, totals, largest entry, the sum along an assignment |
| `labels.dfy` | `Labels` | label arrays: D, relabelling, agreement, hits under a relabelling |
| `confusion.dfy` | `ConfusionCounts` | the confusion counts, in closed form and as the counting loop |
| `assignment.dfy` | `Assignment` | an optimal solver for the square assignment problem |
| `accuracy.dfy` | `ClusteringAccuracy` | cost transform, matched count, the accuracy and its properties |
| `sparsity.dfy` | `Sparsity` | the L0 norm |
| `scenarios.dfy` | `Scenarios` | worked examples of the accuracy |

The accuracy has two counterparts, and lemmas connect them:

- **Operational.** `ClusteringAccuracy.UnsupervisedClassificationAccuracy` runs the counting loop, the cost transform, the solver and the division, in the program's order.
- **Reference.** `ClusteringAccuracy.IsBestRelabelling` describes the matched count directly: it is the largest number of samples that any permutation of 0..D-1 gets right when applied to the predictions.

The solver is a stand-in. `Assignment.Solve` searches every arrangement exhaustively, and is proved to return a permutation of least cost. `ClusteringAccuracy.TieBreakIrrelevant` shows that every least-cost permutation gives the same matched count. So the result does not depend on which optimum the external solver picks.

`Matrices.Assigned` is the sum `sum([w[i, j] for i, j in ind])` along an assignment, and also the solver's objective on the cost matrix. It is a plain definition; the lemmas `Matrices.AssignedIncrement`, `Matrices.AssignedZeros`, `Matrices.AssignedNonNegative`, `ConfusionCounts.MatchedIsHits` and `ClusteringAccuracy.CostComplement` state what it means.

Relabelling the predicted clusters can change D. For example, `y_true = [0]` and `y_pred = [1]` give D = 2, but swapping the two ids gives D = 1 (`Scenarios.RelabelCanShrinkDimension`). The accuracy is still invariant (`ClusteringAccuracy.RelabelInvariant`), because the best count does not depend on the dimension once it covers every label (`ClusteringAccuracy.MatchedAtDimension`).

## Model

| member | source | states |
|---|---|---|
| Seqs.SeqMax | DMAE/Metrics.py:25 | the maximum of a non-empty array is at least every element and is one of them |
| Labels.NumClasses | DMAE/Metrics.py:25 | D is positive, every label of both arrays is below D, and no smaller bound keeps them all below it |
| Matrices.Zeros | DMAE/Metrics.py:26 | the starting matrix is D-by-D with every entry zero |
| Matrices.Increment | DMAE/Metrics.py:28 | one update adds one at entry (p, t) and leaves every other entry and every shape as it was |
| Matrices.IncrementSum | DMAE/Metrics.py:28 | each update raises the total of the matrix by exactly one |
| ConfusionCounts.CountPairs | DMAE/Metrics.py:27-28 | the number of samples with a given (predicted, true) pair is at most the number of samples |
| ConfusionCounts.CountPairsIsSize | DMAE/Metrics.py:27-28 | that count is the size of the set of sample indices carrying the pair |
| ConfusionCounts.Confusion | DMAE/Metrics.py:26-28 | the closed form of `w` is D-by-D; its entry (p, t) is the pair count that `ConfusionCounts.CountPairsIsSize` characterises |
| ConfusionCounts.ConfusionTotal | DMAE/Metrics.py:26-28 | when every label is below D, the closed-form counts total the number of samples |
| ConfusionCounts.ConfusionStep | DMAE/Metrics.py:27-28 | adding one more sample to the closed-form counts increments exactly the entry (predicted, true) of that sample |
| ConfusionCounts.BuildConfusion | DMAE/Metrics.py:26-28 | the counting loop ends with the closed-form counts: entry (p, t) is the number of samples predicted p with truth t, and the entries total the number of samples |
| ConfusionCounts.MatchedIsHits | DMAE/Metrics.py:28-30 | summing the counts along an assignment gives the number of samples that assignment relabels correctly |
| Labels.Hits | DMAE/Metrics.py:30 | the samples right under a relabelling number at most n, and all n exactly when every prediction is relabelled to its true label |
| Labels.HitsIdentity | DMAE/Metrics.py:30 | the identity relabelling gets as many samples right as plain agreement counts |
| Labels.HitsRelabel | DMAE/Metrics.py:28-30 | renaming the predictions by sigma and then reading them through perm is the same as reading the originals through perm after sigma |
| Matrices.AssignedIncrement | DMAE/Metrics.py:28-30 | one more count at (a, b) raises the sum `sum(w[i, j] for i, j in ind)` by one exactly when the assignment picks (a, b), and leaves it otherwise |
| Matrices.AssignedZeros | DMAE/Metrics.py:30 | summing along an assignment that picks only zero entries gives zero |
| Matrices.AssignedNonNegative | DMAE/Metrics.py:29-30 | summing along an assignment that picks only non-negative entries gives a non-negative total |
| Matrices.MaxEntry | DMAE/Metrics.py:29 | `w.max()` is at least every entry and is one of them |
| ClusteringAccuracy.CostMatrix | DMAE/Metrics.py:29 | `w.max() - w` is D-by-D with no negative entry |
| ClusteringAccuracy.CostComplement | DMAE/Metrics.py:29 | along any assignment, cost plus matched count is the number of rows times `w.max()` |
| ClusteringAccuracy.CheaperIsLarger | DMAE/Metrics.py:29 | between two permutations, the cost of one is no larger exactly when its matched count is no smaller |
| Assignment.BestFrom | DMAE/Metrics.py:29 | the search over the free columns returns an arrangement of them that is legal for the remaining rows |
| Assignment.BestFromOptimal | DMAE/Metrics.py:29 | no arrangement of the free columns costs less than the one the search returns |
| Assignment.Solve | DMAE/Metrics.py:29 | the solver returns a permutation of the columns whose cost is at most that of every permutation |
| ClusteringAccuracy.OptimalAssignmentIsBest | DMAE/Metrics.py:29-30 | any least-cost permutation of `w.max() - w` matches the largest number of samples any relabelling gets right |
| ClusteringAccuracy.MatchedAt | DMAE/Metrics.py:29-30 | the count summed along the solver's assignment is the best relabelling count at that dimension |
| ClusteringAccuracy.TieBreakIrrelevant | DMAE/Metrics.py:29-30 | every least-cost permutation gives the same matched count, whichever optimum the solver returns |
| ClusteringAccuracy.BestUnique | DMAE/Metrics.py:29-30 | the best relabelling count is unique |
| ClusteringAccuracy.BestShrink | DMAE/Metrics.py:25-30 | dropping the unused top label value from the dimension keeps the best count |
| ClusteringAccuracy.BestDimension | DMAE/Metrics.py:25-30 | the best count at a dimension that covers all labels is also the best count at any smaller dimension that still covers them |
| ClusteringAccuracy.MatchedAtDimension | DMAE/Metrics.py:25-30 | the matched count is the same for every dimension that covers all labels |
| ClusteringAccuracy.BestRelabel | DMAE/Metrics.py:28-30 | renaming the predictions by a permutation keeps the best count at a fixed dimension |
| ClusteringAccuracy.MatchedCount | DMAE/Metrics.py:25-30 | the matched count at D is the best relabelling count, between the plain agreement count and n |
| ClusteringAccuracy.Ratio | DMAE/Metrics.py:30 | m/n times n is m; the ratio is non-negative, at most 1 exactly when m <= n, and 1 exactly when m == n |
| ClusteringAccuracy.RatioMonotone | DMAE/Metrics.py:30 | a larger matched count over the same n gives a larger ratio |
| ClusteringAccuracy.Accuracy | DMAE/Metrics.py:12-30 | the accuracy lies in [0, 1] and is 1 exactly when the matched count is n |
| ClusteringAccuracy.UnsupervisedClassificationAccuracy | DMAE/Metrics.py:12-30 | the step-by-step computation returns the accuracy of the first n true labels against the n predictions, even when `y_true` is longer and raises D |
| ClusteringAccuracy.AccuracyAtLeastAgreement | DMAE/Metrics.py:25-30 | the accuracy is at least the share of samples where prediction and truth already agree |
| ClusteringAccuracy.PerfectAccuracy | DMAE/Metrics.py:25-30 | the accuracy is 1 exactly when some permutation of 0..D-1 turns the predictions into the true labels |
| ClusteringAccuracy.IdenticalLabels | DMAE/Metrics.py:25-30 | predicting the true labels scores 1 |
| ClusteringAccuracy.RelabelInvariant | DMAE/Metrics.py:25-30 | renaming the predicted clusters by any permutation leaves the accuracy unchanged, even when D changes |
| Scenarios.PerfectMatchExample | DMAE/Metrics.py:12-30 | `[0,1,2,0,1,2]` against itself scores 1 |
| Scenarios.SwappedClustersExample | DMAE/Metrics.py:12-30 | truth `[0,0,1,1]` against prediction `[1,1,0,0]` scores 1 |
| Scenarios.SwapUndoesPrediction | DMAE/Metrics.py:25 | swapping ids 0 and 1 turns `[1,1,0,0]` into `[0,0,1,1]` |
| Scenarios.SingleClusterExample | DMAE/Metrics.py:12-30 | truth `[0,0,1,1]` against a single cluster `[0,0,0,0]` scores 0.5 |
| Scenarios.SingleClusterHits | DMAE/Metrics.py:29-30 | whatever class the one cluster is read as, two of the four samples are right |
| Scenarios.RelabelCanShrinkDimension | DMAE/Metrics.py:25 | renaming the prediction `[1]` against truth `[0]` by the swap of ids 0 and 1 lowers D from 2 to 1 |
| Sparsity.CountAbove | DMAE/Metrics.py:45 | a row's count is at most the row's length |
| Sparsity.CountAboveIsSize | DMAE/Metrics.py:45 | a row's count is the number of positions whose score is strictly above the threshold |
| Sparsity.CountAboveAntitone | DMAE/Metrics.py:45 | raising the threshold never raises a row's count |
| Sparsity.L0Norm | DMAE/Metrics.py:32-46 | one count per sample, each the number of that sample's scores strictly above the threshold, so at most its number of clusters |
| Sparsity.L0NormAntitone | DMAE/Metrics.py:45-46 | raising the threshold never raises any sample's count |
| Sparsity.L0NormExamples | DMAE/Metrics.py:32-46 | two soft assignments give counts `[3, 3]` at the default threshold 1e-7 and `[1, 2]` at 0.3 |

## Left out

- `scipy.optimize.linear_sum_assignment` is external code. It is replaced by an exhaustive search proved to return a least-cost permutation. Its running time and its own choice among equal-cost optima are not modelled. `ClusteringAccuracy.TieBreakIrrelevant` shows the choice does not affect the result.
- Floating point is not modelled.
  - The accuracy (`*1.0/y_pred.size`) is an exact real.
  - The L0 counts, which the program casts to `float32`, are natural numbers.
  - The soft-assignment scores are reals, compared exactly.
- numpy dtypes, array shapes and `int64` overflow of the counts are not modelled. Counts are unbounded naturals; they never exceed the number of samples.
- Labels are natural numbers. A negative label from -D to -1 indexes `w` from its end (numpy's wrap-around). A smaller label, or arrays whose labels are all negative, make the program raise. Neither is modelled.
- Inputs on which the program raises an exception are excluded by preconditions. They are:
  - an empty `y_pred` or `y_true`, since the maximum of an empty array fails;
  - a `y_true` shorter than `y_pred`, since indexing past its end fails.
- Accuracy: defined for arrays of equal length. Only the method `ClusteringAccuracy.UnsupervisedClassificationAccuracy` also accepts a longer `y_true`, as the program does.
- Sparsity.L0Norm: takes a sequence of rows. It does not require the rows to have the same length, as a 2-D array would.
- The `metrics` class (DMAE/Metrics.py:48-51) only stores references to the two functions, so it has no behaviour to model.
