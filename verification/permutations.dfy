/**
 * Permutations of 0..d-1, written as sequences: `perm[p]` is the image of `p`.
 * An assignment of the square assignment problem is such a permutation (row `p`
 * is matched to column `perm[p]`), and so is a relabelling of cluster ids.
 */
module Permutations {
  import opened Seqs

  predicate IsPermutation(perm: seq<nat>, d: nat) {
    && |perm| == d
    && (forall p :: 0 <= p < d ==> perm[p] < d)
    && Distinct(perm)
  }

  /** The permutation that keeps every index where it is. */
  function Identity(d: nat): (id: seq<nat>)
    ensures |id| == d
    ensures forall p :: 0 <= p < d ==> id[p] == p
    ensures IsPermutation(id, d)
  {
    seq(d, p => p)
  }

  lemma IdentityMembers(d: nat)
    ensures forall x: nat :: x in Identity(d) <==> x < d
  {
    forall x: nat | x < d
      ensures x in Identity(d)
    {
      assert Identity(d)[x] == x;
    }
  }

  /** A permutation of 0..d-1 is exactly a rearrangement of the identity. */
  lemma PermutationMultiset(perm: seq<nat>, d: nat)
    ensures IsPermutation(perm, d) <==> multiset(perm) == multiset(Identity(d))
  {
    IdentityMembers(d);
    if IsPermutation(perm, d) {
      Onto(perm, d);
      forall v: nat
        ensures multiset(perm)[v] == multiset(Identity(d))[v]
      {
        DistinctCount(perm, v);
        DistinctCount(Identity(d), v);
        if v in perm {
          var p :| 0 <= p < |perm| && perm[p] == v;
        }
      }
      assert multiset(perm) == multiset(Identity(d));
    }
    if multiset(perm) == multiset(Identity(d)) {
      assert |perm| == d by {
        assert |multiset(perm)| == |perm|;
      }
      forall p | 0 <= p < d
        ensures perm[p] < d
      {
        assert perm[p] in multiset(perm);
      }
      forall i, j | 0 <= i < j < d
        ensures perm[i] != perm[j]
      {
        if perm[i] == perm[j] {
          var v := perm[i];
          assert perm == perm[..j] + perm[j..];
          assert perm[..j][i] == v && perm[j..][0] == v;
          assert multiset(perm)[v] == multiset(perm[..j])[v] + multiset(perm[j..])[v];
          DistinctCount(Identity(d), v);
          assert false;
        }
      }
    }
  }

  /** `outer` applied after `inner`. */
  function Compose(outer: seq<nat>, inner: seq<nat>): (r: seq<nat>)
    requires forall p :: 0 <= p < |inner| ==> inner[p] < |outer|
    ensures |r| == |inner|
    ensures forall p :: 0 <= p < |inner| ==> r[p] == outer[inner[p]]
    ensures forall d: nat :: IsPermutation(outer, d) && IsPermutation(inner, d) ==> IsPermutation(r, d)
  {
    seq(|inner|, p requires 0 <= p < |inner| => outer[inner[p]])
  }

  /** Pigeonhole: a duplicate-free sequence of values below `m` has at most `m` elements. */
  lemma {:induction false} InjectiveBound(s: seq<nat>, m: nat)
    requires Distinct(s)
    requires forall i :: 0 <= i < |s| ==> s[i] < m
    ensures |s| <= m
    decreases m
  {
    if |s| == 0 {
    } else if k :| 0 <= k < |s| && s[k] == m - 1 {
      var rest := RemoveAt(s, k);
      RemoveAtDistinct(s, k);
      forall i | 0 <= i < |rest|
        ensures rest[i] < m - 1
      {
        assert rest[i] in rest;
      }
      InjectiveBound(rest, m - 1);
    } else {
      assert s[0] < m;
      InjectiveBound(s, m - 1);
    }
  }

  /** Every value below `d` is the image of some index. */
  lemma Onto(perm: seq<nat>, d: nat)
    requires IsPermutation(perm, d)
    ensures forall v: nat :: v < d ==> v in perm
  {
    forall v: nat | v < d
      ensures v in perm
    {
      if v !in perm {
        // Close the gap at v: the result is duplicate-free with values below d - 1.
        var squeezed := seq(d, i requires 0 <= i < d => if perm[i] > v then perm[i] - 1 else perm[i]);
        forall i | 0 <= i < d
          ensures squeezed[i] < d - 1
        {
          assert perm[i] in perm;
        }
        forall i, j | 0 <= i < j < d
          ensures squeezed[i] != squeezed[j]
        {
          assert perm[i] in perm && perm[j] in perm;
        }
        InjectiveBound(squeezed, d - 1);
        assert false;
      }
    }
  }

  /** The position of `v` in `s`. */
  function IndexOf(s: seq<nat>, v: nat): (k: nat)
    requires v in s
    ensures k < |s| && s[k] == v
  {
    if s[0] == v then 0 else 1 + IndexOf(s[1..], v)
  }

  function Inverse(perm: seq<nat>, d: nat): (inv: seq<nat>)
    requires IsPermutation(perm, d)
    ensures IsPermutation(inv, d)
    ensures forall v :: 0 <= v < d ==> perm[inv[v]] == v
    ensures forall p :: 0 <= p < d ==> inv[perm[p]] == p
  {
    Onto(perm, d);
    var inv := seq(d, v requires 0 <= v < d => IndexOf(perm, v));
    assert forall p :: 0 <= p < d ==> inv[perm[p]] == p by {
      forall p | 0 <= p < d
        ensures inv[perm[p]] == p
      {
        var k := inv[perm[p]];
        assert perm[k] == perm[p];
      }
    }
    inv
  }

  /** Adds a fixed point `d` on top of a permutation of 0..d-1. */
  function Extend(perm: seq<nat>, d: nat): (r: seq<nat>)
    requires IsPermutation(perm, d)
    ensures IsPermutation(r, d + 1)
    ensures forall p :: 0 <= p < d ==> r[p] == perm[p]
  {
    perm + [d]
  }

  /**
   * Turns a permutation of 0..d into one of 0..d-1 that agrees with it on every
   * index whose image is below `d`: the index sent to `d` takes the image of `d`.
   */
  function Shrink(perm: seq<nat>, d: nat): (r: seq<nat>)
    requires IsPermutation(perm, d + 1)
    ensures IsPermutation(r, d)
    ensures forall p :: 0 <= p < d && perm[p] < d ==> r[p] == perm[p]
  {
    Onto(perm, d + 1);
    var a := IndexOf(perm, d);
    if a == d then
      perm[..d]
    else
      var r := perm[..d][a := perm[d]];
      assert forall p :: 0 <= p < d && p != a ==> r[p] < d by {
        forall p | 0 <= p < d && p != a
          ensures r[p] < d
        {
          assert perm[p] != perm[a];
        }
      }
      assert perm[d] != perm[a];
      r
  }
}
