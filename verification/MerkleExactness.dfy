/**
 * The converse directions.  With an injective pair hash a proof that reaches the root is the only
 * one; with the free pair hash and distinct leaves, only the provable leaves round-trip.
 */
module MerkleExactness {
  import opened Common
  import opened MerkleTree
  import opened MerkleTreeService
  import opened MerkleProofs

  ghost predicate Injective<H(!new)>(h: (H, H) -> H) {
    forall a, b, c, d :: h(a, b) == h(c, d) ==> a == c && b == d
  }

  /** Two verifier runs that meet after k steps started from the same hash and used the same proofs. */
  lemma {:induction false} ClimbIsInjective<H(!new)>(h: (H, H) -> H, i: nat, n: nat, k: nat,
                                                     hash: Option<H>, proofs: seq<Option<H>>,
                                                     hash': Option<H>, proofs': seq<Option<H>>)
    requires Injective(h) && k <= |proofs| && k <= |proofs'|
    requires Climb(h, hash, i, n, proofs, k) == Climb(h, hash', i, n, proofs', k) != None
    ensures hash == hash' && proofs[..k] == proofs'[..k]
    decreases k
  {
    if k > 0 {
      ClimbIsInjective(h, i, n, k - 1, hash, proofs, hash', proofs');
      assert proofs[..k] == proofs[..k - 1] + [proofs[k - 1]];
      assert proofs'[..k] == proofs'[..k - 1] + [proofs'[k - 1]];
    }
  }

  /** For a provable leaf, the only full-length proof that reaches the root is the prover's. */
  lemma {:induction false} ProofIsUnique<H(!new)>(h: (H, H) -> H, s: seq<H>, i: nat,
                                                  hash: Option<H>, proofs: seq<Option<H>>)
    requires Injective(h) && i < |s| && Provable(|s|, i) && |proofs| == Depth(|s|)
    requires Climb(h, hash, i, |s|, proofs, |proofs|) == At(Flat(h, s), |Flat(h, s)| - 1)
    ensures Proof(hash, proofs) == ProofFor(Flat(h, s), |s|, i)
  {
    var d := Depth(|s|);
    var p := ProofFor(Flat(h, s), |s|, i);
    ProvableRoundTrips(h, s, i);
    FlatEndsInRoot(h, s);
    ClimbIsInjective(h, i, |s|, d, hash, proofs, p.hash, p.proofs);
    assert proofs[..d] == proofs && p.proofs[..d] == p.proofs;
  }

  // ---------------------------------------------------------------- the free pair hash

  datatype Term = Leaf(id: nat) | Node(left: Term, right: Term)

  function FreePair(): (Term, Term) -> Term {
    (left, right) => Node(left, right)
  }

  function Height(t: Term): nat {
    match t
    case Leaf(_) => 0
    case Node(left, _) => 1 + Height(left)
  }

  ghost predicate Distinct<T>(s: seq<T>) {
    forall a, b :: 0 <= a < b < |s| ==> s[a] != s[b]
  }

  ghost predicate AllHeight(s: seq<Term>, hgt: nat) {
    forall a :: 0 <= a < |s| ==> Height(s[a]) == hgt
  }

  /** Pairwise distinct leaves. */
  ghost predicate DistinctLeaves(s: seq<Term>) {
    Distinct(s) && AllHeight(s, 0)
  }

  lemma PairsStayDistinct(s: seq<Term>, hgt: nat)
    requires Distinct(s) && AllHeight(s, hgt)
    ensures Distinct(Pairs(FreePair(), s)) && AllHeight(Pairs(FreePair(), s), hgt + 1)
  {
    var r := Pairs(FreePair(), s);
    forall a, b | 0 <= a < b < |r|
      ensures r[a] != r[b]
    {
      assert r[a] == Node(s[2 * a], s[2 * a + 1]) && r[b] == Node(s[2 * b], s[2 * b + 1]);
    }
  }

  /** No hash occurs twice in the flat array: levels differ in height. */
  lemma {:induction false} FlatIsDistinct(s: seq<Term>, hgt: nat)
    requires Distinct(s) && AllHeight(s, hgt)
    ensures Distinct(Flat(FreePair(), s))
    ensures forall a :: 0 <= a < |Flat(FreePair(), s)| ==> Height(Flat(FreePair(), s)[a]) >= hgt
    decreases |s|
  {
    if |s| > 0 {
      PairsStayDistinct(s, hgt);
      FlatIsDistinct(Pairs(FreePair(), s), hgt + 1);
    }
  }

  /** A node reached at level k + 1 was hashed from a pair of level k; the side tells which one was known. */
  lemma {:induction false} StepDown(s: seq<Term>, i: nat, hash: Option<Term>, proofs: seq<Option<Term>>, k: nat, q: nat)
    returns (below: nat)
    requires k < |proofs| && q < Shift(|s|, k + 1)
    requires Climb(FreePair(), hash, i, |s|, proofs, k + 1) == Some(Level(FreePair(), s, k + 1)[q])
    ensures below / 2 == q && below % 2 == RunningIndex(|s|, i, k) % 2
    ensures below < Shift(|s|, k) && Beside(below) < Shift(|s|, k)
    ensures Climb(FreePair(), hash, i, |s|, proofs, k) == Some(Level(FreePair(), s, k)[below])
    ensures proofs[k] == Some(Level(FreePair(), s, k)[Beside(below)])
  {
    var level := Level(FreePair(), s, k);
    LevelStep(FreePair(), s, k);
    ShiftStep(|s|, k);
    assert Level(FreePair(), s, k + 1)[q] == Node(level[2 * q], level[2 * q + 1]);
    below := 2 * q + RunningIndex(|s|, i, k) % 2;
  }

  /**
   * Going down from a node that the verifier reached at level k, everything it used was on the
   * leaf's path: the sides, the proofs and the position itself.
   */
  lemma {:induction false} ReachedAlongPath(s: seq<Term>, i: nat, proofs: seq<Option<Term>>, k: nat, q: nat)
    requires DistinctLeaves(s) && i < |s| && k <= |proofs| && q < Shift(|s|, k)
    requires Climb(FreePair(), Some(s[i]), i, |s|, proofs, k) == Some(Level(FreePair(), s, k)[q])
    ensures q == Shift(i, k)
    ensures forall j :: 0 <= j < k ==>
              RunningIndex(|s|, i, j) % 2 == Shift(i, j) % 2 && AuthenticAt(FreePair(), s, i, proofs[j], j)
    decreases k
  {
    if k > 0 {
      var below := StepDown(s, i, Some(s[i]), proofs, k - 1, q);
      ReachedAlongPath(s, i, proofs, k - 1, below);
      ShiftStep(i, k - 1);
    }
  }

  lemma {:induction false} EvenShifts(n: nat, e: nat)
    requires forall k :: 0 <= k < e ==> Shift(n, k) % 2 == 0
    ensures EvenUpTo(n, e)
    decreases e
  {
    if e > 0 {
      assert Shift(n, 0) % 2 == 0;
      forall k | 0 <= k < e - 1
        ensures Shift(n / 2, k) % 2 == 0
      {
        assert Shift(n, k + 1) % 2 == 0;
      }
      EvenShifts(n / 2, e - 1);
    }
  }

  /** The prover reads the path's neighbour only where the level starts at an even index. */
  lemma {:induction false} AuthenticMeansEvenOffset(s: seq<Term>, i: nat, k: nat)
    requires DistinctLeaves(s)
    requires AuthenticAt(FreePair(), s, i, At(Flat(FreePair(), s), SiblingIndex(|s|, i, k)), k)
    ensures Offset(|s|, k) % 2 == 0
  {
    var beside := Beside(Shift(i, k));
    FlatHoldsLevel(FreePair(), s, k, beside);
    FlatIsDistinct(s, 0);
    assert SiblingIndex(|s|, i, k) == Offset(|s|, k) + beside;
  }

  lemma {:induction false} RoundTripIsAuthentic(s: seq<Term>, i: nat)
    requires DistinctLeaves(s) && i < |s| && RoundTrips(FreePair(), s, i)
    ensures Shift(i, Depth(|s|)) == 0
    ensures forall k :: 0 <= k < Depth(|s|) ==>
              AuthenticAt(FreePair(), s, i, At(Flat(FreePair(), s), SiblingIndex(|s|, i, k)), k)
  {
    var flat, n, d := Flat(FreePair(), s), |s|, Depth(|s|);
    var p := ProofFor(flat, n, i);
    FlatHoldsLevel(FreePair(), s, 0, i);
    FlatEndsInRoot(FreePair(), s);
    assert p.hash == Some(s[i]);
    assert Climb(FreePair(), p.hash, i, n, p.proofs, d) == At(flat, |flat| - 1);
    ReachedAlongPath(s, i, p.proofs, d, 0);
    forall k | 0 <= k < d
      ensures AuthenticAt(FreePair(), s, i, At(flat, SiblingIndex(n, i, k)), k)
    {
      assert p.proofs[k] == At(flat, SiblingIndex(n, i, k));
    }
  }

  lemma {:induction false} RoundTripMeansProvable(s: seq<Term>, i: nat)
    requires DistinctLeaves(s) && i < |s| && RoundTrips(FreePair(), s, i)
    ensures Provable(|s|, i)
  {
    RoundTripIsAuthentic(s, i);
    ShiftedOut(i, Depth(|s|));
    forall k | 0 <= k < Depth(|s|)
      ensures Offset(|s|, k) % 2 == 0
    {
      AuthenticMeansEvenOffset(s, i, k);
    }
    EvenOffsetsMeanGood(|s|);
  }

  lemma {:induction false} ShiftedOut(i: nat, d: nat)
    requires Shift(i, d) == 0
    ensures i < Pow2(d)
    decreases d
  {
    if d > 0 {
      ShiftedOut(i / 2, d - 1);
    }
  }

  lemma {:induction false} EvenOffsetsMeanGood(n: nat)
    requires n > 0 && forall k :: 0 <= k < Depth(n) ==> Offset(n, k) % 2 == 0
    ensures GoodLeafAmount(n)
  {
    if n > 1 {
      forall k | 0 <= k < Depth(n) - 1
        ensures Shift(n, k) % 2 == 0
      {
        OffsetStep(n, k);
        assert Offset(n, k + 1) % 2 == 0;
      }
      EvenShifts(n, Depth(n) - 1);
      GoodLeafAmountIsEven(n);
    }
  }

  /**
   * The exact condition: over distinct leaves and the free pair hash, leaf i round-trips if and
   * only if it is provable.  By ProvableRoundTrips the "if" half holds for every hash and all leaves.
   */
  lemma {:induction false} RoundTripsExactly(s: seq<Term>, i: nat)
    requires DistinctLeaves(s) && i < |s|
    ensures RoundTrips(FreePair(), s, i) <==> Provable(|s|, i)
  {
    if Provable(|s|, i) {
      ProvableRoundTrips(FreePair(), s, i);
    }
    if RoundTrips(FreePair(), s, i) {
      RoundTripMeansProvable(s, i);
    }
  }

  /** Five leaves: the proof of leaf 0, which is under the root, does not verify. */
  lemma {:induction false} FiveLeavesFail()
    ensures
      var s := [Leaf(0), Leaf(1), Leaf(2), Leaf(3), Leaf(4)];
      0 < Pow2(Depth(|s|)) && !RoundTrips(FreePair(), s, 0)
  {
    var s := [Leaf(0), Leaf(1), Leaf(2), Leaf(3), Leaf(4)];
    assert Depth(5) == 1 + Depth(2) && Depth(2) == 1 + Depth(1) && Pow2(2) == 4;
    assert !Provable(5, 0);
    RoundTripsExactly(s, 0);
  }
}
