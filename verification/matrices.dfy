/**
 * Dense integer matrices as sequences of rows, and the total of the entries an
 * assignment picks out of them.
 */
module Matrices {
  import opened Seqs

  type Matrix = seq<seq<int>>

  /** `m` has `d` rows of `d` entries each. */
  predicate IsSquare(m: Matrix, d: nat) {
    |m| == d && forall p :: 0 <= p < d ==> |m[p]| == d
  }

  /** The d-by-d matrix of zeros (numpy's `np.zeros((D, D))`). */
  function Zeros(d: nat): (z: Matrix)
    ensures IsSquare(z, d)
    ensures forall p, t :: 0 <= p < d && 0 <= t < d ==> z[p][t] == 0
  {
    seq(d, p => seq(d, t => 0))
  }

  function RowSum(row: seq<int>): int {
    if row == [] then 0 else row[0] + RowSum(row[1..])
  }

  function MatrixSum(m: Matrix): int {
    if m == [] then 0 else RowSum(m[0]) + MatrixSum(m[1..])
  }

  /** `m` with one more count at entry (p, t), as the confusion loop does per sample. */
  function Increment(m: Matrix, p: nat, t: nat): (m': Matrix)
    requires p < |m| && t < |m[p]|
    ensures |m'| == |m| && forall q :: 0 <= q < |m| ==> |m'[q]| == |m[q]|
    ensures forall q, u :: 0 <= q < |m| && 0 <= u < |m[q]| ==>
              m'[q][u] == m[q][u] + (if q == p && u == t then 1 else 0)
  {
    m[p := m[p][t := m[p][t] + 1]]
  }

  lemma {:induction false} RowSumUpdate(row: seq<int>, t: nat, v: int)
    requires t < |row|
    ensures RowSum(row[t := v]) == RowSum(row) - row[t] + v
  {
    if t > 0 {
      assert row[t := v][1..] == row[1..][t - 1 := v];
      RowSumUpdate(row[1..], t - 1, v);
    } else {
      assert row[t := v][1..] == row[1..];
    }
  }

  lemma {:induction false} MatrixSumUpdate(m: Matrix, p: nat, row: seq<int>)
    requires p < |m|
    ensures MatrixSum(m[p := row]) == MatrixSum(m) - RowSum(m[p]) + RowSum(row)
  {
    if p > 0 {
      assert m[p := row][1..] == m[1..][p - 1 := row];
      MatrixSumUpdate(m[1..], p - 1, row);
    } else {
      assert m[p := row][1..] == m[1..];
    }
  }

  /** One increment adds exactly one to the total of the matrix. */
  lemma IncrementSum(m: Matrix, p: nat, t: nat)
    requires p < |m| && t < |m[p]|
    ensures MatrixSum(Increment(m, p, t)) == MatrixSum(m) + 1
  {
    RowSumUpdate(m[p], t, m[p][t] + 1);
    MatrixSumUpdate(m, p, m[p][t := m[p][t] + 1]);
  }

  lemma {:induction false} ZerosSum(d: nat, k: nat)
    requires k <= d
    ensures MatrixSum(Zeros(d)[k..]) == 0
    decreases d - k
  {
    if k < d {
      assert Zeros(d)[k..][1..] == Zeros(d)[k + 1..];
      ZeroRowSum(Zeros(d)[k]);
      ZerosSum(d, k + 1);
    }
  }

  lemma {:induction false} ZeroRowSum(row: seq<int>)
    requires forall t :: 0 <= t < |row| ==> row[t] == 0
    ensures RowSum(row) == 0
  {
    if row != [] {
      ZeroRowSum(row[1..]);
    }
  }

  /** The largest entry of a non-empty square matrix (numpy's `w.max()`). */
  function MaxEntry(m: Matrix, d: nat): (mx: int)
    requires IsSquare(m, d) && d > 0
    ensures forall p, t :: 0 <= p < d && 0 <= t < d ==> m[p][t] <= mx
    ensures exists p, t :: 0 <= p < d && 0 <= t < d && m[p][t] == mx
  {
    var rowMax := seq(d, p requires 0 <= p < d => SeqMax(m[p]));
    var mx := SeqMax(rowMax);
    assert forall p, t :: 0 <= p < d && 0 <= t < d ==> m[p][t] <= rowMax[p];
    var p :| 0 <= p < d && rowMax[p] == mx;
    var t :| 0 <= t < d && m[p][t] == rowMax[p];
    mx
  }

  /** The column picks `q` are legal for the rows `r`, `r + 1`, ... of `m`. */
  predicate Fits(m: Matrix, r: nat, q: seq<nat>) {
    r + |q| <= |m| && forall k :: 0 <= k < |q| ==> q[k] < |m[r + k]|
  }

  /** A legal pick for row `r` in front of legal picks for the rows after it. */
  lemma FitsCons(m: Matrix, r: nat, x: nat, q: seq<nat>)
    requires Fits(m, r + 1, q) && x < |m[r]|
    ensures Fits(m, r, [x] + q)
  {
    var xq := [x] + q;
    forall k | 0 <= k < |xq|
      ensures xq[k] < |m[r + k]|
    {
      if k > 0 {
        assert xq[k] == q[k - 1];
      }
    }
  }

  /**
   * The total of the entries `m[r + k][q[k]]`: row `r + k` is matched to column `q[k]`.
   * With `r == 0` and a permutation `q` this is the objective of the assignment problem.
   */
  function Assigned(m: Matrix, r: nat, q: seq<nat>): int
    requires Fits(m, r, q)
    decreases |q|
  {
    if q == [] then 0 else m[r][q[0]] + Assigned(m, r + 1, q[1..])
  }

  lemma AssignedCons(m: Matrix, r: nat, q: seq<nat>)
    requires Fits(m, r, q) && q != []
    ensures Fits(m, r + 1, q[1..])
    ensures Assigned(m, r, q) == m[r][q[0]] + Assigned(m, r + 1, q[1..])
  {
  }

  /** Incrementing entry (a, b) raises an assignment's total by one exactly when it picks (a, b). */
  lemma {:induction false} AssignedIncrement(m: Matrix, r: nat, q: seq<nat>, a: nat, b: nat)
    requires Fits(m, r, q) && a < |m| && b < |m[a]|
    ensures Fits(Increment(m, a, b), r, q)
    ensures Assigned(Increment(m, a, b), r, q)
            == Assigned(m, r, q) + (if r <= a < r + |q| && q[a - r] == b then 1 else 0)
    decreases |q|
  {
    if q != [] {
      AssignedIncrement(m, r + 1, q[1..], a, b);
    }
  }

  /** Picking only non-negative entries gives a non-negative total. */
  lemma {:induction false} AssignedNonNegative(m: Matrix, r: nat, q: seq<nat>)
    requires Fits(m, r, q)
    requires forall k :: 0 <= k < |q| ==> m[r + k][q[k]] >= 0
    ensures Assigned(m, r, q) >= 0
    decreases |q|
  {
    if q != [] {
      assert m[r][q[0]] >= 0;
      AssignedNonNegative(m, r + 1, q[1..]);
    }
  }

  /** Picking only zero entries gives a zero total. */
  lemma {:induction false} AssignedZeros(m: Matrix, r: nat, q: seq<nat>)
    requires Fits(m, r, q)
    requires forall k :: 0 <= k < |q| ==> m[r + k][q[k]] == 0
    ensures Assigned(m, r, q) == 0
    decreases |q|
  {
    if q != [] {
      assert m[r][q[0]] == 0;
      AssignedZeros(m, r + 1, q[1..]);
    }
  }
}
