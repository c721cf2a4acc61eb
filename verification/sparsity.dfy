/**
 * The L0 norm of soft cluster assignments: for every sample (a row of scores,
 * one per cluster), the number of scores strictly above a threshold.
 */
module Sparsity {

  /** The threshold used when the caller gives none (1e-7). */
  const DefaultThreshold: real := 0.0000001

  /** The number of entries of `row` strictly greater than `thr`. */
  function CountAbove(row: seq<real>, thr: real): (k: nat)
    ensures k <= |row|
  {
    if row == [] then 0
    else
      var n := |row| - 1;
      CountAbove(row[..n], thr) + (if row[n] > thr then 1 else 0)
  }

  /** The indices of the entries of `row` strictly greater than `thr`. */
  ghost function Above(row: seq<real>, thr: real): set<nat> {
    set j: nat | j < |row| && row[j] > thr
  }

  /** The count is exactly the number of positions holding an entry above the threshold. */
  lemma {:induction false} CountAboveIsSize(row: seq<real>, thr: real)
    ensures CountAbove(row, thr) == |Above(row, thr)|
  {
    if row != [] {
      var n := |row| - 1;
      CountAboveIsSize(row[..n], thr);
      var before := Above(row[..n], thr);
      assert n !in before;
      if row[n] > thr {
        assert Above(row, thr) == before + {n};
      } else {
        assert Above(row, thr) == before;
      }
    }
  }

  /** Raising the threshold never raises the count. */
  lemma {:induction false} CountAboveAntitone(row: seq<real>, lo: real, hi: real)
    requires lo <= hi
    ensures CountAbove(row, hi) <= CountAbove(row, lo)
  {
    if row != [] {
      CountAboveAntitone(row[..|row| - 1], lo, hi);
    }
  }

  /**
   * One count per row of `preds`: how many of that sample's scores exceed `thr`.
   * The counts are whole numbers, between zero and the row's length.
   */
  function L0Norm(preds: seq<seq<real>>, thr: real): (counts: seq<nat>)
    ensures |counts| == |preds|
    ensures forall i :: 0 <= i < |preds| ==> counts[i] <= |preds[i]|
    ensures forall i :: 0 <= i < |preds| ==> counts[i] == |Above(preds[i], thr)|
  {
    var counts := seq(|preds|, i requires 0 <= i < |preds| => CountAbove(preds[i], thr));
    assert forall i :: 0 <= i < |preds| ==> counts[i] == |Above(preds[i], thr)| by {
      forall i | 0 <= i < |preds|
        ensures counts[i] == |Above(preds[i], thr)|
      {
        CountAboveIsSize(preds[i], thr);
      }
    }
    counts
  }

  /** Raising the threshold never raises any sample's count. */
  lemma L0NormAntitone(preds: seq<seq<real>>, lo: real, hi: real)
    requires lo <= hi
    ensures forall i :: 0 <= i < |preds| ==> L0Norm(preds, hi)[i] <= L0Norm(preds, lo)[i]
  {
    forall i | 0 <= i < |preds|
      ensures L0Norm(preds, hi)[i] <= L0Norm(preds, lo)[i]
    {
      CountAboveAntitone(preds[i], lo, hi);
    }
  }

  /** Two soft assignments scored at the default threshold and at 0.3. */
  lemma L0NormExamples()
    ensures L0Norm([[0.9, 0.05, 0.05], [0.4, 0.35, 0.25]], DefaultThreshold) == [3, 3]
    ensures L0Norm([[0.9, 0.05, 0.05], [0.4, 0.35, 0.25]], 0.3) == [1, 2]
  {
    var preds: seq<seq<real>> := [[0.9, 0.05, 0.05], [0.4, 0.35, 0.25]];
    assert [0.9, 0.05, 0.05][..2] == [0.9, 0.05] && [0.9, 0.05][..1] == [0.9] && [0.9][..0] == [];
    assert [0.4, 0.35, 0.25][..2] == [0.4, 0.35] && [0.4, 0.35][..1] == [0.4] && [0.4][..0] == [];
    assert CountAbove(preds[0], DefaultThreshold) == 3 && CountAbove(preds[1], DefaultThreshold) == 3;
    assert CountAbove(preds[0], 0.3) == 1 && CountAbove(preds[1], 0.3) == 2;
    assert L0Norm(preds, DefaultThreshold)[0] == CountAbove(preds[0], DefaultThreshold);
  }
}
