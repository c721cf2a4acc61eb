/**
 * The linear assignment problem on a square cost matrix: choose a permutation
 * `perm` (row `p` goes to column `perm[p]`) with the least total cost.
 *
 * The metric hands this problem to an external solver. Here the solver is
 * stood in for by an exhaustive search: it tries every column for the current
 * row and recurses on the columns still free, keeping the first cheapest
 * arrangement it meets. Its result is proved to be a permutation whose cost is
 * no greater than that of any other permutation, which is all the metric relies on.
 */
module Assignment {
  import opened Seqs
  import opened Matrices
  import opened Permutations

  /** `q` is `avail` in some order. */
  predicate IsArrangement(q: seq<nat>, avail: seq<nat>) {
    |q| == |avail| && multiset(q) == multiset(avail)
  }

  /** Rows `r`, `r + 1`, ... of the square matrix `c` are still to be matched to the free columns `avail`. */
  predicate SearchSpace(c: Matrix, r: nat, avail: seq<nat>) {
    && IsSquare(c, |c|)
    && r + |avail| <= |c|
    && (forall k :: 0 <= k < |avail| ==> avail[k] < |c|)
  }

  /** The cheapest arrangement of `avail` over rows `r`, `r + 1`, ... */
  function BestFrom(c: Matrix, r: nat, avail: seq<nat>): (q: seq<nat>)
    requires SearchSpace(c, r, avail)
    ensures IsArrangement(q, avail) && Fits(c, r, q)
    decreases |avail|, 2, 0
  {
    if avail == [] then [] else BestAmong(c, r, avail, 0)
  }

  /** Row `r` takes column `avail[j]`; the remaining rows take the cheapest arrangement of the other columns. */
  function Candidate(c: Matrix, r: nat, avail: seq<nat>, j: nat): (q: seq<nat>)
    requires SearchSpace(c, r, avail) && j < |avail|
    ensures IsArrangement(q, avail) && Fits(c, r, q)
    ensures q[0] == avail[j] && q[1..] == BestFrom(c, r + 1, RemoveAt(avail, j))
    decreases |avail|, 0, 0
  {
    var rest := BestFrom(c, r + 1, RemoveAt(avail, j));
    ArrangementCons(avail, j, rest);
    FitsCons(c, r, avail[j], rest);
    [avail[j]] + rest
  }

  /** The cheapest of the candidates `k`, `k + 1`, ..., the earliest one on a tie. */
  function BestAmong(c: Matrix, r: nat, avail: seq<nat>, k: nat): (q: seq<nat>)
    requires SearchSpace(c, r, avail) && k < |avail|
    ensures IsArrangement(q, avail) && Fits(c, r, q)
    ensures forall j :: k <= j < |avail| ==> Assigned(c, r, q) <= Assigned(c, r, Candidate(c, r, avail, j))
    decreases |avail|, 1, |avail| - k
  {
    var here := Candidate(c, r, avail, k);
    if k + 1 == |avail| then here
    else
      var rest := BestAmong(c, r, avail, k + 1);
      if Assigned(c, r, here) <= Assigned(c, r, rest) then here else rest
  }

  /** Putting `avail[j]` in front of an arrangement of the other columns arranges all of them. */
  lemma ArrangementCons(avail: seq<nat>, j: nat, rest: seq<nat>)
    requires j < |avail| && IsArrangement(rest, RemoveAt(avail, j))
    ensures IsArrangement([avail[j]] + rest, avail)
  {
    RemoveAtMultiset(avail, j);
    assert avail[j] in multiset(avail);
  }

  lemma ArrangementFits(c: Matrix, r: nat, avail: seq<nat>, q: seq<nat>)
    requires SearchSpace(c, r, avail) && IsArrangement(q, avail)
    ensures Fits(c, r, q)
  {
    forall k | 0 <= k < |q|
      ensures q[k] < |c[r + k]|
    {
      assert q[k] in multiset(avail);
    }
  }

  /** Once the first column of an arrangement is taken out, the rest arranges the other columns. */
  lemma ArrangementTail(avail: seq<nat>, q: seq<nat>, j: nat)
    requires IsArrangement(q, avail) && j < |avail| && avail[j] == q[0]
    ensures IsArrangement(q[1..], RemoveAt(avail, j))
  {
    RemoveAtMultiset(avail, j);
    assert q == [q[0]] + q[1..];
  }

  /** The search is no dearer than putting row `r` on any one free column and searching the rest. */
  lemma BestFromStep(c: Matrix, r: nat, avail: seq<nat>, j: nat)
    requires SearchSpace(c, r, avail) && j < |avail|
    ensures SearchSpace(c, r + 1, RemoveAt(avail, j))
    ensures Assigned(c, r, BestFrom(c, r, avail))
            <= c[r][avail[j]] + Assigned(c, r + 1, BestFrom(c, r + 1, RemoveAt(avail, j)))
  {
    var cand := Candidate(c, r, avail, j);
    assert BestFrom(c, r, avail) == BestAmong(c, r, avail, 0);
    assert Assigned(c, r, cand) == c[r][cand[0]] + Assigned(c, r + 1, cand[1..]);
  }

  /**
   * One step of the search against an arrangement `q`, whose row `r` takes
   * the free column `avail[j]`: the rest of `q` arranges the other columns, and the search is
   * no dearer than `q`'s first entry plus the search over the rest.
   */
  lemma BestFromSplit(c: Matrix, r: nat, avail: seq<nat>, q: seq<nat>) returns (j: nat)
    requires SearchSpace(c, r, avail) && IsArrangement(q, avail) && avail != []
    ensures j < |avail| && avail[j] == q[0]
    ensures SearchSpace(c, r + 1, RemoveAt(avail, j)) && IsArrangement(q[1..], RemoveAt(avail, j))
    ensures Fits(c, r, q) && Assigned(c, r, q) == c[r][q[0]] + Assigned(c, r + 1, q[1..])
    ensures Assigned(c, r, BestFrom(c, r, avail))
            <= c[r][q[0]] + Assigned(c, r + 1, BestFrom(c, r + 1, RemoveAt(avail, j)))
  {
    assert q[0] in multiset(avail);
    j :| 0 <= j < |avail| && avail[j] == q[0];
    ArrangementFits(c, r, avail, q);
    ArrangementTail(avail, q, j);
    BestFromStep(c, r, avail, j);
    AssignedCons(c, r, q);
  }

  /** No arrangement of the free columns is cheaper than the one the search returns. */
  lemma {:induction false} BestFromBeats(c: Matrix, r: nat, avail: seq<nat>, q: seq<nat>)
    requires SearchSpace(c, r, avail) && IsArrangement(q, avail)
    ensures Fits(c, r, q)
    ensures Assigned(c, r, BestFrom(c, r, avail)) <= Assigned(c, r, q)
    decreases |avail|
  {
    ArrangementFits(c, r, avail, q);
    if avail != [] {
      var j := BestFromSplit(c, r, avail, q);
      BestFromBeats(c, r + 1, RemoveAt(avail, j), q[1..]);
    }
  }

  lemma BestFromOptimal(c: Matrix, r: nat, avail: seq<nat>)
    requires SearchSpace(c, r, avail)
    ensures forall q :: IsArrangement(q, avail) ==>
              Fits(c, r, q) && Assigned(c, r, BestFrom(c, r, avail)) <= Assigned(c, r, q)
  {
    forall q | IsArrangement(q, avail)
      ensures Fits(c, r, q) && Assigned(c, r, BestFrom(c, r, avail)) <= Assigned(c, r, q)
    {
      BestFromBeats(c, r, avail, q);
    }
  }

  /**
   * The optimal assignment of a square cost matrix: a permutation of its rows'
   * columns whose total cost is at most that of every permutation.
   */
  function Solve(c: Matrix): (perm: seq<nat>)
    requires IsSquare(c, |c|)
    ensures IsPermutation(perm, |c|) && Fits(c, 0, perm)
    ensures forall other :: IsPermutation(other, |c|) ==>
              Fits(c, 0, other) && Assigned(c, 0, perm) <= Assigned(c, 0, other)
  {
    var d := |c|;
    var perm := BestFrom(c, 0, Identity(d));
    PermutationMultiset(perm, d);
    BestFromOptimal(c, 0, Identity(d));
    forall other | IsPermutation(other, d)
      ensures IsArrangement(other, Identity(d))
    {
      PermutationMultiset(other, d);
    }
    perm
  }
}
