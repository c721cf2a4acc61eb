/** The worked scenarios of the accuracy metric, proved from the general lemmas. */
module Scenarios {
  import opened Permutations
  import opened Labels
  import opened ClusteringAccuracy

  /** Predicting the truth itself. */
  lemma PerfectMatchExample()
    ensures Accuracy([0, 1, 2, 0, 1, 2], [0, 1, 2, 0, 1, 2]) == 1.0
  {
    IdenticalLabels([0, 1, 2, 0, 1, 2]);
  }

  /** Swapped cluster ids are undone by the matching. */
  lemma SwappedClustersExample()
    ensures Accuracy([0, 0, 1, 1], [1, 1, 0, 0]) == 1.0
  {
    var swap := SwapUndoesPrediction();
    PerfectAccuracy([0, 0, 1, 1], [1, 1, 0, 0]);
  }

  /** Exchanging ids 0 and 1 turns the prediction into the truth. */
  lemma SwapUndoesPrediction() returns (swap: seq<nat>)
    ensures IsPermutation(swap, NumClasses([0, 0, 1, 1], [1, 1, 0, 0]))
    ensures InRange([1, 1, 0, 0], |swap|) && Relabel(swap, [1, 1, 0, 0]) == [0, 0, 1, 1]
  {
    TwoClasses();
    swap := [1, 0];
    assert IsPermutation(swap, 2);
    var renamed := Relabel(swap, [1, 1, 0, 0]);
    assert renamed[0] == 0 && renamed[1] == 0 && renamed[2] == 1 && renamed[3] == 1;
  }

  /** Both label arrays use exactly the ids 0 and 1. */
  lemma TwoClasses()
    ensures NumClasses([0, 0, 1, 1], [1, 1, 0, 0]) == 2
  {
    var yTrue: seq<nat>, yPred: seq<nat> := [0, 0, 1, 1], [1, 1, 0, 0];
    assert InRange(yTrue, 2) && InRange(yPred, 2);
    assert yTrue[2] < NumClasses(yTrue, yPred);
  }

  /** One cluster for everything captures only the larger class. */
  lemma SingleClusterExample()
    ensures Accuracy([0, 0, 1, 1], [0, 0, 0, 0]) == 0.5
  {
    var yTrue: seq<nat>, yPred: seq<nat> := [0, 0, 1, 1], [0, 0, 0, 0];
    var d := NumClasses(yTrue, yPred);
    assert InRange(yTrue, 2) && InRange(yPred, 2);
    assert yTrue[2] < d;
    var m := MatchedCount(yTrue, yPred);
    var perm :| IsPermutation(perm, d) && Hits(yTrue, yPred, perm) == m;
    SingleClusterHits(perm);
    assert Ratio(2, 4) == 0.5;
  }

  /** Whatever the one predicted cluster is read as, two of the four samples are right. */
  lemma SingleClusterHits(perm: seq<nat>)
    requires |perm| == 2 && perm[0] < 2
    ensures InRange([0, 0, 0, 0], |perm|)
    ensures Hits([0, 0, 1, 1], [0, 0, 0, 0], perm) == 2
  {
    var yTrue: seq<nat>, yPred: seq<nat> := [0, 0, 1, 1], [0, 0, 0, 0];
    assert yTrue[..3] == [0, 0, 1] && yTrue[..3][..2] == [0, 0] && yTrue[..3][..2][..1] == [0];
    assert yPred[..3] == [0, 0, 0] && yPred[..3][..2] == [0, 0] && yPred[..3][..2][..1] == [0];
    assert [0][..0] == [];
    var hit := if perm[0] == 0 then 1 else 0;
    assert Hits([0], [0], perm) == hit;
    assert Hits([0, 0], [0, 0], perm) == 2 * hit;
    assert Hits([0, 0, 1], [0, 0, 0], perm) == 2 * hit + 1 - hit;
  }

  /**
   * Relabelling can lower D: with truth `[0]` and prediction `[1]`, D is 2, and
   * after swapping ids 0 and 1 the prediction is `[0]` and D is 1.
   */
  lemma RelabelCanShrinkDimension()
    ensures IsPermutation([1, 0], NumClasses([0], [1])) && InRange([1], 2)
    ensures NumClasses([0], [1]) == 2
    ensures NumClasses([0], Relabel([1, 0], [1])) == 1
  {
    var yTrue: seq<nat>, yPred: seq<nat>, swap: seq<nat> := [0], [1], [1, 0];
    assert InRange(yTrue, 2) && InRange(yPred, 2);
    assert yPred[0] == 1;
    var renamed := Relabel(swap, yPred);
    assert renamed == [0];
    assert InRange(yTrue, 1) && InRange(renamed, 1);
  }
}
