/**
 * Label arrays (`y_true`, `y_pred`): sequences of non-negative class or cluster
 * ids, and the counts of samples on which two labellings agree.
 */
module Labels {
  import opened Seqs
  import opened Permutations

  /** Every label is below `d`, so it indexes a d-by-d matrix. */
  predicate InRange(ys: seq<nat>, d: nat) {
    forall i :: 0 <= i < |ys| ==> ys[i] < d
  }

  /**
   * The matrix dimension D: one more than the largest label of either array.
   * It is the least bound that keeps every label of both arrays in range.
   */
  function NumClasses(yTrue: seq<nat>, yPred: seq<nat>): (d: nat)
    requires |yTrue| > 0 && |yPred| > 0
    ensures d > 0
    ensures InRange(yTrue, d) && InRange(yPred, d)
    ensures forall d': nat :: InRange(yTrue, d') && InRange(yPred, d') ==> d <= d'
  {
    var mp := SeqMax(yPred);
    var mt := SeqMax(yTrue);
    var m := if mp >= mt then mp else mt;
    assert yPred[0] <= m;
    m + 1
  }

  /** The labels `ys` renamed by `sigma`: label `y` becomes `sigma[y]`. */
  function Relabel(sigma: seq<nat>, ys: seq<nat>): (r: seq<nat>)
    requires InRange(ys, |sigma|)
    ensures |r| == |ys|
    ensures forall i :: 0 <= i < |ys| ==> r[i] == sigma[ys[i]]
  {
    seq(|ys|, i requires 0 <= i < |ys| => sigma[ys[i]])
  }

  /** The number of samples whose predicted label equals the true label. */
  function Agreement(yTrue: seq<nat>, yPred: seq<nat>): nat
    requires |yTrue| == |yPred|
  {
    if |yPred| == 0 then 0
    else
      var n := |yPred| - 1;
      Agreement(yTrue[..n], yPred[..n]) + (if yPred[n] == yTrue[n] then 1 else 0)
  }

  /**
   * The number of samples classified correctly once every predicted label `p`
   * is read as the true label `perm[p]`.
   */
  function Hits(yTrue: seq<nat>, yPred: seq<nat>, perm: seq<nat>): (h: nat)
    requires |yTrue| == |yPred| && InRange(yPred, |perm|)
    ensures h <= |yPred|
    ensures h == |yPred| <==> forall i :: 0 <= i < |yPred| ==> perm[yPred[i]] == yTrue[i]
  {
    if |yPred| == 0 then 0
    else
      var n := |yPred| - 1;
      var h := Hits(yTrue[..n], yPred[..n], perm);
      assert forall i :: 0 <= i < n ==> yPred[..n][i] == yPred[i] && yTrue[..n][i] == yTrue[i];
      h + (if perm[yPred[n]] == yTrue[n] then 1 else 0)
  }

  /** Reading predictions through the identity counts plain agreement. */
  lemma {:induction false} HitsIdentity(yTrue: seq<nat>, yPred: seq<nat>, d: nat)
    requires |yTrue| == |yPred| && InRange(yPred, d)
    ensures Hits(yTrue, yPred, Identity(d)) == Agreement(yTrue, yPred)
  {
    if |yPred| > 0 {
      var n := |yPred| - 1;
      HitsIdentity(yTrue[..n], yPred[..n], d);
    }
  }

  /** A relabelling that is right wherever another one is right has at least as many hits. */
  lemma {:induction false} HitsMonotone(yTrue: seq<nat>, yPred: seq<nat>, perm: seq<nat>, perm': seq<nat>)
    requires |yTrue| == |yPred| && InRange(yPred, |perm|) && InRange(yPred, |perm'|)
    requires forall i :: 0 <= i < |yPred| && perm[yPred[i]] == yTrue[i] ==> perm'[yPred[i]] == yTrue[i]
    ensures Hits(yTrue, yPred, perm) <= Hits(yTrue, yPred, perm')
  {
    if |yPred| > 0 {
      var n := |yPred| - 1;
      HitsMonotone(yTrue[..n], yPred[..n], perm, perm');
    }
  }

  /** Relabelling the predictions by `sigma` and then reading them through `perm` is reading them through `perm` after `sigma`. */
  lemma {:induction false} HitsRelabel(yTrue: seq<nat>, yPred: seq<nat>, perm: seq<nat>, sigma: seq<nat>)
    requires |yTrue| == |yPred| && InRange(yPred, |sigma|)
    requires forall p :: 0 <= p < |sigma| ==> sigma[p] < |perm|
    ensures InRange(Relabel(sigma, yPred), |perm|)
    ensures Hits(yTrue, Relabel(sigma, yPred), perm) == Hits(yTrue, yPred, Compose(perm, sigma))
  {
    if |yPred| > 0 {
      var n := |yPred| - 1;
      assert Relabel(sigma, yPred)[..n] == Relabel(sigma, yPred[..n]);
      HitsRelabel(yTrue[..n], yPred[..n], perm, sigma);
    }
  }
}
