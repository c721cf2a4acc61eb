/**
 * The D-by-D confusion-count matrix `w` of the accuracy metric: `w[p][t]` counts
 * the samples predicted as `p` whose true label is `t`.
 */
module ConfusionCounts {
  import opened Matrices
  import opened Permutations
  import opened Labels

  /** The number of samples `i` with `yPred[i] == p` and `yTrue[i] == t`. */
  function CountPairs(yTrue: seq<nat>, yPred: seq<nat>, p: int, t: int): (c: nat)
    requires |yTrue| == |yPred|
    ensures c <= |yPred|
  {
    if |yPred| == 0 then 0
    else
      var n := |yPred| - 1;
      CountPairs(yTrue[..n], yPred[..n], p, t) + (if yPred[n] == p && yTrue[n] == t then 1 else 0)
  }

  /** The samples predicted `p` whose true label is `t`. */
  ghost function Pairs(yTrue: seq<nat>, yPred: seq<nat>, p: int, t: int): set<nat>
    requires |yTrue| == |yPred|
  {
    set i: nat | i < |yPred| && yPred[i] == p && yTrue[i] == t
  }

  /** The count is exactly the number of samples with that (predicted, true) pair. */
  lemma {:induction false} CountPairsIsSize(yTrue: seq<nat>, yPred: seq<nat>, p: int, t: int)
    requires |yTrue| == |yPred|
    ensures CountPairs(yTrue, yPred, p, t) == |Pairs(yTrue, yPred, p, t)|
  {
    if |yPred| != 0 {
      var n := |yPred| - 1;
      CountPairsIsSize(yTrue[..n], yPred[..n], p, t);
      var before := Pairs(yTrue[..n], yPred[..n], p, t);
      assert n !in before;
      if yPred[n] == p && yTrue[n] == t {
        assert Pairs(yTrue, yPred, p, t) == before + {n};
      } else {
        assert Pairs(yTrue, yPred, p, t) == before;
      }
    }
  }

  /** The confusion matrix as a closed form, one count per (predicted, true) pair. */
  function Confusion(yTrue: seq<nat>, yPred: seq<nat>, d: nat): (w: seq<seq<nat>>)
    requires |yTrue| == |yPred|
    ensures IsSquare(w, d)
  {
    seq(d, p => seq(d, t => CountPairs(yTrue, yPred, p, t)))
  }

  /** Appending one sample to the data increments the one entry it falls into. */
  lemma ConfusionStep(yTrue: seq<nat>, yPred: seq<nat>, d: nat)
    requires |yTrue| == |yPred| > 0 && InRange(yTrue, d) && InRange(yPred, d)
    ensures Confusion(yTrue, yPred, d)
            == Increment(Confusion(yTrue[..|yPred| - 1], yPred[..|yPred| - 1], d),
                         yPred[|yPred| - 1], yTrue[|yPred| - 1])
  {
    var n := |yPred| - 1;
    var w := Confusion(yTrue, yPred, d);
    var w' := Increment(Confusion(yTrue[..n], yPred[..n], d), yPred[n], yTrue[n]);
    assert forall p :: 0 <= p < d ==> w[p] == w'[p];
  }

  /** When every label is below `d`, the closed-form counts total the number of samples. */
  lemma {:induction false} ConfusionTotal(yTrue: seq<nat>, yPred: seq<nat>, d: nat)
    requires |yTrue| == |yPred| && InRange(yTrue, d) && InRange(yPred, d)
    ensures MatrixSum(Confusion(yTrue, yPred, d)) == |yPred|
  {
    if |yPred| == 0 {
      assert forall p :: 0 <= p < d ==> Confusion(yTrue, yPred, d)[p] == Zeros(d)[p];
      assert Confusion(yTrue, yPred, d) == Zeros(d);
      ZerosSum(d, 0);
    } else {
      var n := |yPred| - 1;
      ConfusionTotal(yTrue[..n], yPred[..n], d);
      ConfusionStep(yTrue, yPred, d);
      IncrementSum(Confusion(yTrue[..n], yPred[..n], d), yPred[n], yTrue[n]);
    }
  }

  /**
   * The counting loop: starts from zeros and adds one to `w[yPred[i]][yTrue[i]]`
   * for every sample. Every update is in bounds, the result is the closed form,
   * and its entries total the number of samples.
   */
  method BuildConfusion(yTrue: seq<nat>, yPred: seq<nat>, d: nat) returns (w: seq<seq<nat>>)
    requires |yTrue| == |yPred| && InRange(yTrue, d) && InRange(yPred, d)
    ensures w == Confusion(yTrue, yPred, d)
    ensures forall p, t :: 0 <= p < d && 0 <= t < d ==> w[p][t] == CountPairs(yTrue, yPred, p, t)
    ensures MatrixSum(w) == |yPred|
  {
    w := Zeros(d);
    ZerosSum(d, 0);
    assert forall p :: 0 <= p < d ==> Zeros(d)[p] == Confusion(yTrue[..0], yPred[..0], d)[p];
    var i := 0;
    while i < |yPred|
      invariant 0 <= i <= |yPred|
      invariant w == Confusion(yTrue[..i], yPred[..i], d)
      invariant MatrixSum(w) == i
    {
      var p, t := yPred[i], yTrue[i];
      IncrementSum(w, p, t);
      assert yTrue[..i + 1][..i] == yTrue[..i] && yPred[..i + 1][..i] == yPred[..i];
      ConfusionStep(yTrue[..i + 1], yPred[..i + 1], d);
      w := w[p := w[p][t := w[p][t] + 1]];
      i := i + 1;
    }
    assert yTrue[..i] == yTrue && yPred[..i] == yPred;
  }

  /**
   * Summing the confusion matrix along an assignment `perm` counts the samples that
   * `perm` relabels correctly.
   */
  lemma {:induction false} MatchedIsHits(yTrue: seq<nat>, yPred: seq<nat>, d: nat, perm: seq<nat>)
    requires |yTrue| == |yPred| && InRange(yTrue, d) && InRange(yPred, d)
    requires |perm| == d && forall p :: 0 <= p < d ==> perm[p] < d
    ensures Fits(Confusion(yTrue, yPred, d), 0, perm)
    ensures Assigned(Confusion(yTrue, yPred, d), 0, perm) == Hits(yTrue, yPred, perm)
  {
    var w := Confusion(yTrue, yPred, d);
    if |yPred| == 0 {
      AssignedZeros(w, 0, perm);
    } else {
      var n := |yPred| - 1;
      MatchedIsHits(yTrue[..n], yPred[..n], d, perm);
      ConfusionStep(yTrue, yPred, d);
      AssignedIncrement(Confusion(yTrue[..n], yPred[..n], d), 0, perm, yPred[n], yTrue[n]);
    }
  }
}
