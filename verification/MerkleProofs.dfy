/**
 * When does a proof made by the prover verify?  Exactly when the leaf lies among the first
 * 2^Depth(n) leaves and n is 2^Depth(n) or 3 * 2^(Depth(n) - 1).
 */
module MerkleProofs {
  import opened Common
  import opened MerkleTree
  import opened MerkleTreeService

  /** The two families of leaf counts whose level offsets stay even below the top. */
  predicate GoodLeafAmount(n: nat) {
    n == Pow2(Depth(n)) || 2 * n == 3 * Pow2(Depth(n))
  }

  /** What a caller can check before asking for a proof. */
  predicate Provable(n: nat, i: nat) {
    GoodLeafAmount(n) && i < Pow2(Depth(n))
  }

  /** Over the tree of the leaves s, the verifier takes the prover's answer for leaf i to the root. */
  predicate RoundTrips<H(==)>(h: (H, H) -> H, s: seq<H>, i: nat) {
    var flat := Flat(h, s);
    var p := ProofFor(flat, |s|, i);
    Climb(h, p.hash, i, |s|, p.proofs, Depth(|s|)) == At(flat, |flat| - 1)
  }

  // ---------------------------------------------------------------- parity of the offsets

  lemma {:induction false} GoodLeafAmountIsEven(n: nat)
    requires n > 1
    ensures GoodLeafAmount(n) <==> EvenUpTo(n, Depth(n) - 1)
    decreases n
  {
    if n > 3 {
      var d, p := Depth(n), Pow2(Depth(n) - 2);
      GoodLeafAmountIsEven(n / 2);
      assert Depth(n / 2) == d - 1 && Pow2(d - 1) == 2 * p && Pow2(d) == 4 * p;
      assert n % 2 == 0 ==> (EvenUpTo(n, d - 1) <==> EvenUpTo(n / 2, d - 2));
      assert n % 2 == 1 ==> n != 4 * p && 2 * n != 12 * p;
    } else {
      assert Depth(n) == 1 && Pow2(1) == 2;
    }
  }

  /** The levels below k end at a multiple of 2^e when the leaf count is a multiple of 2^(k - 1 + e). */
  lemma {:induction false} OffsetIsEven(n: nat, k: nat, e: nat)
    requires k == 0 || EvenUpTo(n, k - 1 + e)
    ensures k == 0 ==> Offset(n, k) == 0
    ensures k > 0 ==> EvenUpTo(Offset(n, k), e)
    decreases k
  {
    if k > 0 {
      EvenUpToWeaken(n, k - 1 + e, e);
      if k > 1 {
        OffsetIsEven(n / 2, k - 1, e);
        EvenUpToSum(n, Offset(n / 2, k - 1), e);
      }
    }
  }

  /** What the running index has on top of the leaf's position at level k. */
  function Carry(n: nat, k: nat): nat {
    if k == 0 then 0 else Offset(n, k) + Carry(n, k - 1) / 2
  }

  /**
   * For a multiple of 2^d leaves, the running index at level k <= d + 1 is the leaf's position at
   * that level plus a multiple of 2^(d + 1 - k).
   */
  lemma {:induction false} RunningIndexSplits(n: nat, i: nat, k: nat, d: nat)
    requires EvenUpTo(n, d) && k <= d + 1
    ensures RunningIndex(n, i, k) == Carry(n, k) + Shift(i, k)
    ensures k > 0 ==> EvenUpTo(Carry(n, k), d + 1 - k)
    decreases k
  {
    if k > 0 {
      RunningIndexSplits(n, i, k - 1, d);
      ShiftStep(i, k - 1);
      OffsetIsEven(n, k, d + 1 - k);
      var c := Carry(n, k - 1);
      if k == 1 {
        assert c == 0;
        EvenUpToZero(d);
        EvenUpToSum(Offset(n, k), 0, d);
      } else {
        EvenUpToSum(Offset(n, k), c / 2, d + 1 - k);
      }
    }
  }

  // ---------------------------------------------------------------- provable leaves round-trip

  /** The position of the hash that pairs with position j. */
  function Beside(j: nat): nat {
    if j % 2 == 1 then j - 1 else j + 1
  }

  lemma PathPosition(i: nat, d: nat, k: nat)
    requires i < Pow2(d) && k <= d
    ensures Shift(i, k) < Pow2(d - k)
  {
    if k > 0 {
      PathPosition(i / 2, d - 1, k - 1);
    }
  }

  /** Below the top, a leaf of the first 2^d has its path node and that node's pair in every level. */
  lemma {:induction false} PathInLevel(n: nat, i: nat, k: nat)
    requires n > 0 && k <= Depth(n) && i < Pow2(Depth(n))
    ensures Shift(i, k) < Shift(n, k)
    ensures k < Depth(n) ==> Beside(Shift(i, k)) < Shift(n, k)
  {
    PathPosition(i, Depth(n), k);
    LevelSize(n, k);
    if k < Depth(n) {
      assert Pow2(Depth(n) - k) % 2 == 0;
    }
  }

  /** The verifier puts the path node of every level on its own side. */
  predicate SidesAgree(n: nat, i: nat) {
    forall k :: 0 <= k < Depth(n) ==> RunningIndex(n, i, k) % 2 == Shift(i, k) % 2
  }

  /** Proof k is the hash that pairs with the path node of leaf i at level k. */
  predicate AuthenticAt<H(==)>(h: (H, H) -> H, s: seq<H>, i: nat, proof: Option<H>, k: nat) {
    && Shift(i, k) < Shift(|s|, k)
    && Beside(Shift(i, k)) < Shift(|s|, k)
    && proof == Some(Level(h, s, k)[Beside(Shift(i, k))])
  }

  /** The authentication path of leaf i, from the leaves up. */
  predicate Authentic<H(==)>(h: (H, H) -> H, s: seq<H>, i: nat, proofs: seq<Option<H>>) {
    forall k :: 0 <= k < |proofs| ==> AuthenticAt(h, s, i, proofs[k], k)
  }

  /** For a multiple of 2^d leaves, both parities at a level k <= d are those of the path. */
  lemma {:induction false} EvenStep(n: nat, i: nat, k: nat, d: nat)
    requires EvenUpTo(n, d) && k <= d
    ensures RunningIndex(n, i, k) % 2 == Shift(i, k) % 2
    ensures SiblingIndex(n, i, k) == Offset(n, k) + Beside(Shift(i, k))
  {
    RunningIndexSplits(n, i, k, d);
    if k > 0 {
      OffsetIsEven(n, k, d + 1 - k);
      EvenPlus(Carry(n, k), Shift(i, k));
      EvenPlus(Offset(n, k), Shift(i, k));
    }
  }

  lemma EvenPlus(even: nat, x: nat)
    requires even % 2 == 0
    ensures (even + x) % 2 == x % 2
  {
  }

  lemma {:induction false} SiblingIsAuthentic<H>(h: (H, H) -> H, s: seq<H>, i: nat, k: nat)
    requires s != [] && i < Pow2(Depth(|s|)) && k < Depth(|s|)
    requires SiblingIndex(|s|, i, k) == Offset(|s|, k) + Beside(Shift(i, k))
    ensures AuthenticAt(h, s, i, At(Flat(h, s), SiblingIndex(|s|, i, k)), k)
  {
    PathInLevel(|s|, i, k);
    FlatHoldsLevel(h, s, k, Beside(Shift(i, k)));
  }

  /** The prover hands out the authentication path, and the verifier takes the right sides. */
  lemma {:induction false} ProverIsAuthentic<H>(h: (H, H) -> H, s: seq<H>, i: nat)
    requires s != [] && Provable(|s|, i)
    ensures Authentic(h, s, i, ProofFor(Flat(h, s), |s|, i).proofs) && SidesAgree(|s|, i)
  {
    var flat, n := Flat(h, s), |s|;
    forall k | 0 <= k < Depth(n)
      ensures RunningIndex(n, i, k) % 2 == Shift(i, k) % 2
      ensures AuthenticAt(h, s, i, ProofFor(flat, n, i).proofs[k], k)
    {
      GoodLeafAmountIsEven(n);
      EvenStep(n, i, k, Depth(n) - 1);
      SiblingIsAuthentic(h, s, i, k);
    }
  }

  /** The node above a path node hashes it with its pair, each on its own side. */
  lemma {:induction false} NodeAbove<H>(h: (H, H) -> H, s: seq<H>, i: nat, k: nat)
    requires Shift(i, k) < Shift(|s|, k) && Beside(Shift(i, k)) < Shift(|s|, k)
    ensures Shift(i, k + 1) < Shift(|s|, k + 1)
    ensures
      var level, x := Level(h, s, k), Shift(i, k);
      Level(h, s, k + 1)[Shift(i, k + 1)] ==
      if x % 2 == 1 then h(level[Beside(x)], level[x]) else h(level[x], level[Beside(x)])
  {
    ShiftStep(i, k);
    ShiftStep(|s|, k);
    LevelStep(h, s, k);
    Halves(Shift(i, k));
    var level, q := Level(h, s, k), Shift(i, k) / 2;
    assert Pairs(h, level)[q] == h(level[2 * q], level[2 * q + 1]);
  }

  lemma Halves(x: nat)
    ensures
      var q := x / 2;
      if x % 2 == 1 then x == 2 * q + 1 && Beside(x) == 2 * q else x == 2 * q && Beside(x) == 2 * q + 1
  {
  }

  /** A step along an authentic proof takes the path node of level k to that of level k + 1. */
  lemma {:induction false} ClimbStep<H>(h: (H, H) -> H, s: seq<H>, i: nat, k: nat,
                                        hash: Option<H>, proofs: seq<Option<H>>)
    requires k < |proofs| && AuthenticAt(h, s, i, proofs[k], k)
    requires Climb(h, hash, i, |s|, proofs, k) == Some(Level(h, s, k)[Shift(i, k)])
    requires RunningIndex(|s|, i, k) % 2 == Shift(i, k) % 2
    ensures Shift(i, k + 1) < Shift(|s|, k + 1)
    ensures Climb(h, hash, i, |s|, proofs, k + 1) == Some(Level(h, s, k + 1)[Shift(i, k + 1)])
  {
    NodeAbove(h, s, i, k);
  }

  lemma {:induction false} ClimbFollowsPath<H>(h: (H, H) -> H, s: seq<H>, i: nat, k: nat, proofs: seq<Option<H>>)
    requires i < |s| && k <= |proofs| == Depth(|s|)
    requires Authentic(h, s, i, proofs) && SidesAgree(|s|, i)
    ensures Shift(i, k) < Shift(|s|, k)
    ensures Climb(h, Some(s[i]), i, |s|, proofs, k) == Some(Level(h, s, k)[Shift(i, k)])
    decreases k
  {
    if k > 0 {
      ClimbFollowsPath(h, s, i, k - 1, proofs);
      assert AuthenticAt(h, s, i, proofs[k - 1], k - 1);
      ClimbStep(h, s, i, k - 1, Some(s[i]), proofs);
    }
  }

  /** For every hash function and all leaves, every provable leaf round-trips. */
  lemma {:induction false} ProvableRoundTrips<H>(h: (H, H) -> H, s: seq<H>, i: nat)
    requires i < |s| && Provable(|s|, i)
    ensures RoundTrips(h, s, i)
  {
    var flat, n, d := Flat(h, s), |s|, Depth(|s|);
    var p := ProofFor(flat, n, i);
    ProverIsAuthentic(h, s, i);
    FlatHoldsLevel(h, s, 0, i);
    assert p.hash == Some(s[i]);
    ClimbFollowsPath(h, s, i, d, p.proofs);
    FlatEndsInRoot(h, s);
    assert Shift(i, d) == 0;
    assert Climb(h, p.hash, i, n, p.proofs, d) == At(flat, |flat| - 1);
  }

  /**
   * From data to root: over the tree of some key signatures, the verifier that starts from the hash of number
   * i and uses the prover's proofs for i arrives at the root, for every hash and every provable i.
   */
  lemma {:induction false} KeySignReachesRoot<D, H>(hashKeySign: D -> H, h: (H, H) -> H, data: seq<D>,
                                                    tree: Tree<D, H>, i: nat)
    requires IsTreeOf(hashKeySign, h, data, tree) && i < |data| && Provable(|data|, i)
    ensures
      var proofs := ProofFor(tree.hashes, tree.leafAmount, i).proofs;
      && tree.root.Some?
      && Climb(h, Some(hashKeySign(data[i])), i, tree.leafAmount, proofs, |proofs|) == tree.root
  {
    var leaves := tree.hashes[..|data|];
    ProvableRoundTrips(h, leaves, i);
    FlatEndsInRoot(h, leaves);
    assert At(tree.hashes, i) == Some(hashKeySign(data[i]));
  }

  /** Building, proving and verifying one after the other gives the root. */
  method BuildProveVerify<D, H>(hashKeySign: D -> H, h: (H, H) -> H, data: seq<D>, i: nat)
    returns (root: Option<H>, calcRoot: Option<H>)
    requires i < |data|
    ensures Provable(|data|, i) ==> root.Some? && calcRoot == root
  {
    var tree := CreateTree(hashKeySign, h, data);
    var proof := PrepareProofs(tree, i);
    root := tree.root;
    calcRoot := CreateTreeFromProofs(h, Some(hashKeySign(data[i])), i, tree.leafAmount, proof.proofs);
    if Provable(|data|, i) {
      KeySignReachesRoot(hashKeySign, h, data, tree, i);
    }
  }
}
