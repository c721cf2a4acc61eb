/**
 * Unsupervised classification accuracy: the share of samples that are classified
 * correctly under the best one-to-one renaming of predicted cluster ids to true
 * class ids.
 *
 * The computation follows the metric step by step: the dimension D, the confusion
 * counts `w`, the cost matrix `w.max() - w`, an optimal assignment of that cost
 * matrix, and the matched counts divided by the number of samples. The lemmas
 * below connect the result to an independent description: the largest number of
 * samples any permutation of the predicted labels gets right.
 */
module ClusteringAccuracy {
  import opened Seqs
  import opened Matrices
  import opened Permutations
  import opened Labels
  import opened ConfusionCounts
  import opened Assignment

  /** The cost matrix handed to the solver: every count subtracted from the largest count. */
  function CostMatrix(w: Matrix, d: nat): (c: Matrix)
    requires IsSquare(w, d) && d > 0
    ensures IsSquare(c, d)
    ensures forall p, t :: 0 <= p < d && 0 <= t < d ==> c[p][t] >= 0
  {
    var mx := MaxEntry(w, d);
    seq(d, p requires 0 <= p < d => seq(d, t requires 0 <= t < d => mx - w[p][t]))
  }

  /** Along any assignment, cost and matched count add up to the same constant. */
  lemma {:induction false} CostComplement(w: Matrix, d: nat, r: nat, q: seq<nat>)
    requires IsSquare(w, d) && d > 0 && Fits(w, r, q)
    ensures Fits(CostMatrix(w, d), r, q)
    ensures Assigned(CostMatrix(w, d), r, q) == |q| * MaxEntry(w, d) - Assigned(w, r, q)
    decreases |q|
  {
    if q != [] {
      var mx, c := MaxEntry(w, d), CostMatrix(w, d);
      var k := |q| - 1;
      CostComplement(w, d, r + 1, q[1..]);
      assert Assigned(c, r, q) == c[r][q[0]] + Assigned(c, r + 1, q[1..]);
      assert Assigned(w, r, q) == w[r][q[0]] + Assigned(w, r + 1, q[1..]);
      assert c[r][q[0]] == mx - w[r][q[0]];
      MulStep(k, mx);
    }
  }

  lemma MulStep(k: int, m: int)
    ensures k * m + m == (k + 1) * m
  {
  }

  /** Over full permutations, a cheaper assignment is exactly one with a larger matched count. */
  lemma CheaperIsLarger(w: Matrix, d: nat, perm: seq<nat>, other: seq<nat>)
    requires IsSquare(w, d) && d > 0 && IsPermutation(perm, d) && IsPermutation(other, d)
    ensures Fits(CostMatrix(w, d), 0, perm) && Fits(CostMatrix(w, d), 0, other)
    ensures Assigned(CostMatrix(w, d), 0, perm) <= Assigned(CostMatrix(w, d), 0, other)
            <==> Assigned(w, 0, perm) >= Assigned(w, 0, other)
  {
    CostComplement(w, d, 0, perm);
    CostComplement(w, d, 0, other);
  }

  /**
   * `v` is the largest number of samples that some permutation of 0..d-1,
   * applied to the predicted labels, gets right.
   */
  ghost predicate IsBestRelabelling(yTrue: seq<nat>, yPred: seq<nat>, d: nat, v: int)
    requires |yTrue| == |yPred| && InRange(yPred, d)
  {
    && (exists perm :: IsPermutation(perm, d) && Hits(yTrue, yPred, perm) == v)
    && (forall perm :: IsPermutation(perm, d) ==> Hits(yTrue, yPred, perm) <= v)
  }

  /** Any permutation of least cost matches the largest possible number of samples. */
  lemma OptimalAssignmentIsBest(yTrue: seq<nat>, yPred: seq<nat>, d: nat, perm: seq<nat>)
    requires |yTrue| == |yPred| && InRange(yTrue, d) && InRange(yPred, d) && d > 0
    requires IsPermutation(perm, d)
    requires forall other :: IsPermutation(other, d) ==>
               Assigned(CostMatrix(Confusion(yTrue, yPred, d), d), 0, perm)
               <= Assigned(CostMatrix(Confusion(yTrue, yPred, d), d), 0, other)
    ensures Fits(Confusion(yTrue, yPred, d), 0, perm)
    ensures IsBestRelabelling(yTrue, yPred, d, Assigned(Confusion(yTrue, yPred, d), 0, perm))
  {
    var w := Confusion(yTrue, yPred, d);
    MatchedIsHits(yTrue, yPred, d, perm);
    forall other | IsPermutation(other, d)
      ensures Hits(yTrue, yPred, other) <= Assigned(w, 0, perm)
    {
      MatchedIsHits(yTrue, yPred, d, other);
      CheaperIsLarger(w, d, perm, other);
    }
  }

  /**
   * The matched count at dimension `d`: the confusion counts summed along the
   * assignment the solver returns for `w.max() - w`.
   */
  function MatchedAt(yTrue: seq<nat>, yPred: seq<nat>, d: nat): (m: int)
    requires |yTrue| == |yPred| && InRange(yTrue, d) && InRange(yPred, d) && d > 0
    ensures IsBestRelabelling(yTrue, yPred, d, m)
  {
    var w := Confusion(yTrue, yPred, d);
    var ind := Solve(CostMatrix(w, d));
    OptimalAssignmentIsBest(yTrue, yPred, d, ind);
    Assigned(w, 0, ind)
  }

  /** Whichever least-cost assignment the solver picks on a tie, the matched count is the same. */
  lemma TieBreakIrrelevant(yTrue: seq<nat>, yPred: seq<nat>, d: nat, perm: seq<nat>)
    requires |yTrue| == |yPred| && InRange(yTrue, d) && InRange(yPred, d) && d > 0
    requires IsPermutation(perm, d)
    requires forall other :: IsPermutation(other, d) ==>
               Assigned(CostMatrix(Confusion(yTrue, yPred, d), d), 0, perm)
               <= Assigned(CostMatrix(Confusion(yTrue, yPred, d), d), 0, other)
    ensures Fits(Confusion(yTrue, yPred, d), 0, perm)
    ensures Assigned(Confusion(yTrue, yPred, d), 0, perm) == MatchedAt(yTrue, yPred, d)
  {
    OptimalAssignmentIsBest(yTrue, yPred, d, perm);
    BestUnique(yTrue, yPred, d, Assigned(Confusion(yTrue, yPred, d), 0, perm), MatchedAt(yTrue, yPred, d));
  }

  lemma BestUnique(yTrue: seq<nat>, yPred: seq<nat>, d: nat, v: int, v': int)
    requires |yTrue| == |yPred| && InRange(yPred, d)
    requires IsBestRelabelling(yTrue, yPred, d, v) && IsBestRelabelling(yTrue, yPred, d, v')
    ensures v == v'
  {
  }

  /** Dropping an unused label value from the dimension keeps the best count. */
  lemma BestShrink(yTrue: seq<nat>, yPred: seq<nat>, d: nat, v: int)
    requires |yTrue| == |yPred| && InRange(yTrue, d) && InRange(yPred, d)
    requires IsBestRelabelling(yTrue, yPred, d + 1, v)
    ensures IsBestRelabelling(yTrue, yPred, d, v)
  {
    var perm :| IsPermutation(perm, d + 1) && Hits(yTrue, yPred, perm) == v;
    var small := Shrink(perm, d);
    HitsMonotone(yTrue, yPred, perm, small);
    forall other | IsPermutation(other, d)
      ensures Hits(yTrue, yPred, other) <= v
    {
      HitsMonotone(yTrue, yPred, other, Extend(other, d));
    }
  }

  lemma {:induction false} BestDimension(yTrue: seq<nat>, yPred: seq<nat>, d: nat, d': nat, v: int)
    requires |yTrue| == |yPred| && InRange(yTrue, d) && InRange(yPred, d) && d <= d'
    requires IsBestRelabelling(yTrue, yPred, d', v)
    ensures IsBestRelabelling(yTrue, yPred, d, v)
    decreases d' - d
  {
    if d < d' {
      BestDimension(yTrue, yPred, d + 1, d', v);
      BestShrink(yTrue, yPred, d, v);
    }
  }

  /** The matched count does not depend on how much larger than the labels the matrix is. */
  lemma MatchedAtDimension(yTrue: seq<nat>, yPred: seq<nat>, d: nat, d': nat)
    requires |yTrue| == |yPred| && InRange(yTrue, d) && InRange(yPred, d) && 0 < d <= d'
    ensures InRange(yTrue, d') && InRange(yPred, d')
    ensures MatchedAt(yTrue, yPred, d) == MatchedAt(yTrue, yPred, d')
  {
    BestDimension(yTrue, yPred, d, d', MatchedAt(yTrue, yPred, d'));
    BestUnique(yTrue, yPred, d, MatchedAt(yTrue, yPred, d), MatchedAt(yTrue, yPred, d'));
  }

  /** Renaming the predicted labels by a permutation keeps the best count at a fixed dimension. */
  lemma BestRelabel(yTrue: seq<nat>, yPred: seq<nat>, sigma: seq<nat>, d: nat, v: int)
    requires |yTrue| == |yPred| && InRange(yPred, d) && IsPermutation(sigma, d)
    requires IsBestRelabelling(yTrue, yPred, d, v)
    ensures InRange(Relabel(sigma, yPred), d)
    ensures IsBestRelabelling(yTrue, Relabel(sigma, yPred), d, v)
  {
    var renamed := Relabel(sigma, yPred);
    var best :| IsPermutation(best, d) && Hits(yTrue, yPred, best) == v;
    var inv := Inverse(sigma, d);
    var perm := Compose(best, inv);
    HitsRelabel(yTrue, yPred, perm, sigma);
    assert Compose(perm, sigma) == best;
    forall other | IsPermutation(other, d)
      ensures Hits(yTrue, renamed, other) <= v
    {
      HitsRelabel(yTrue, yPred, other, sigma);
    }
  }

  /** The optimal number of matched samples for the dimension D the metric uses. */
  function MatchedCount(yTrue: seq<nat>, yPred: seq<nat>): (m: nat)
    requires |yTrue| == |yPred| > 0
    ensures Agreement(yTrue, yPred) <= m <= |yPred|
    ensures IsBestRelabelling(yTrue, yPred, NumClasses(yTrue, yPred), m)
  {
    var d := NumClasses(yTrue, yPred);
    var m := MatchedAt(yTrue, yPred, d);
    var perm :| IsPermutation(perm, d) && Hits(yTrue, yPred, perm) == m;
    HitsIdentity(yTrue, yPred, d);
    m
  }

  /** `m` out of `n` as a real number (the metric's `*1.0/y_pred.size`). */
  function Ratio(m: nat, n: nat): (r: real)
    requires n > 0
    ensures r * n as real == m as real
    ensures 0.0 <= r
    ensures r <= 1.0 <==> m <= n
    ensures r == 1.0 <==> m == n
  {
    var r := m as real / n as real;
    assert (r - 1.0) * n as real == (m - n) as real;
    r
  }

  /** A larger count out of the same total is a larger ratio. */
  lemma RatioMonotone(a: nat, b: nat, n: nat)
    requires n > 0 && a <= b
    ensures Ratio(a, n) <= Ratio(b, n)
  {
    var x, y, r := Ratio(a, n), Ratio(b, n), n as real;
    assert y - x == (b - a) as real / r;
  }

  /** The metric's result: the optimal matched count over the number of samples. */
  function Accuracy(yTrue: seq<nat>, yPred: seq<nat>): (acc: real)
    requires |yTrue| == |yPred| > 0
    ensures 0.0 <= acc <= 1.0
    ensures acc == 1.0 <==> MatchedCount(yTrue, yPred) == |yPred|
  {
    Ratio(MatchedCount(yTrue, yPred), |yPred|)
  }

  /**
   * The metric as the program runs it: the dimension, the counting loop, the
   * cost transform, the solver and the division. The loop reads only the first
   * `|yPred|` true labels, but D is taken over all of `yTrue`; the result is the
   * accuracy of the labels the loop reads.
   */
  method UnsupervisedClassificationAccuracy(yTrue: seq<nat>, yPred: seq<nat>) returns (acc: real)
    requires |yTrue| >= |yPred| > 0
    ensures acc == Accuracy(yTrue[..|yPred|], yPred)
  {
    var n := |yPred|;
    var d := NumClasses(yTrue, yPred);
    var read := yTrue[..n];
    assert InRange(read, d) by {
      forall i | 0 <= i < n
        ensures read[i] < d
      {
        assert read[i] == yTrue[i];
      }
    }
    var w := BuildConfusion(read, yPred, d);
    var ind := Solve(CostMatrix(w, d));
    var matched := Assigned(w, 0, ind);
    assert matched == MatchedAt(read, yPred, d);
    MatchedAtDimension(read, yPred, NumClasses(read, yPred), d);
    acc := Ratio(matched, n);
  }

  /** The accuracy is at least the plain agreement rate. */
  lemma AccuracyAtLeastAgreement(yTrue: seq<nat>, yPred: seq<nat>)
    requires |yTrue| == |yPred| > 0
    ensures Ratio(Agreement(yTrue, yPred), |yPred|) <= Accuracy(yTrue, yPred)
  {
    RatioMonotone(Agreement(yTrue, yPred), MatchedCount(yTrue, yPred), |yPred|);
  }

  /** Accuracy 1 exactly when some permutation of the predicted labels reproduces the true labels. */
  lemma PerfectAccuracy(yTrue: seq<nat>, yPred: seq<nat>)
    requires |yTrue| == |yPred| > 0
    ensures Accuracy(yTrue, yPred) == 1.0 <==>
            exists sigma :: IsPermutation(sigma, NumClasses(yTrue, yPred)) && Relabel(sigma, yPred) == yTrue
  {
    var d := NumClasses(yTrue, yPred);
    var m := MatchedCount(yTrue, yPred);
    if Accuracy(yTrue, yPred) == 1.0 {
      var perm :| IsPermutation(perm, d) && Hits(yTrue, yPred, perm) == m;
      assert Relabel(perm, yPred) == yTrue;
    }
    if sigma :| IsPermutation(sigma, d) && Relabel(sigma, yPred) == yTrue {
      assert Hits(yTrue, yPred, sigma) == |yPred|;
    }
  }

  /** Predicting the true labels themselves scores 1. */
  lemma IdenticalLabels(ys: seq<nat>)
    requires |ys| > 0
    ensures Accuracy(ys, ys) == 1.0
  {
    var d := NumClasses(ys, ys);
    assert Relabel(Identity(d), ys) == ys;
    PerfectAccuracy(ys, ys);
  }

  /**
   * Renaming the predicted clusters by any permutation of label values leaves
   * the accuracy unchanged, even when the renaming lowers the largest label and
   * with it the dimension D.
   */
  lemma RelabelInvariant(yTrue: seq<nat>, yPred: seq<nat>, sigma: seq<nat>, d: nat)
    requires |yTrue| == |yPred| > 0 && InRange(yTrue, d) && InRange(yPred, d)
    requires IsPermutation(sigma, d)
    ensures |Relabel(sigma, yPred)| == |yPred|
    ensures Accuracy(yTrue, Relabel(sigma, yPred)) == Accuracy(yTrue, yPred)
  {
    var renamed := Relabel(sigma, yPred);
    var dOld := NumClasses(yTrue, yPred);
    BestRelabel(yTrue, yPred, sigma, d, MatchedAt(yTrue, yPred, d));
    var dNew := NumClasses(yTrue, renamed);
    BestUnique(yTrue, renamed, d, MatchedAt(yTrue, yPred, d), MatchedAt(yTrue, renamed, d));
    MatchedAtDimension(yTrue, yPred, dOld, d);
    MatchedAtDimension(yTrue, renamed, dNew, d);
  }
}
