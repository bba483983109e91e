/** The service's three loops, each proved against the levels of MerkleTree. */
module MerkleTreeService {
  import opened Common
  import opened MerkleTree

  // ---------------------------------------------------------------- what prover and verifier compute

  /** The array index the prover takes the hash beside the known one from, at level k. */
  function SiblingIndex(n: nat, i: nat, k: nat): int {
    var known := Offset(n, k) + Shift(i, k);
    if known % 2 == 1 then known - 1 else known + 1
  }

  function ProofFor<H>(hashes: seq<H>, n: nat, i: nat): (p: Proof<H>)
    ensures |p.proofs| == Depth(n)
  {
    Proof(At(hashes, i), seq(Depth(n), k requires 0 <= k => At(hashes, SiblingIndex(n, i, k))))
  }

  /** The verifier's running index: it adds level offsets and never takes one off again. */
  function RunningIndex(n: nat, i: nat, k: nat): nat {
    if k == 0 then i else Offset(n, k) + RunningIndex(n, i, k - 1) / 2
  }

  function HashPair<H>(h: (H, H) -> H, a: Option<H>, b: Option<H>): Option<H> {
    if a.Some? && b.Some? then Some(h(a.value, b.value)) else None
  }

  /** The verifier's value after k of the proofs. */
  function Climb<H>(h: (H, H) -> H, hash: Option<H>, i: nat, n: nat, proofs: seq<Option<H>>, k: nat): Option<H>
    requires k <= |proofs|
  {
    if k == 0 then hash
    else
      var below := Climb(h, hash, i, n, proofs, k - 1);
      if RunningIndex(n, i, k - 1) % 2 == 1 then HashPair(h, proofs[k - 1], below)
      else HashPair(h, below, proofs[k - 1])
  }

  // ---------------------------------------------------------------- the three methods

  function LeafHashes<D, H>(hashKeySign: D -> H, data: seq<D>): (hashes: seq<H>)
    ensures |hashes| == |data|
  {
    seq(|data|, i requires 0 <= i < |data| => hashKeySign(data[i]))
  }

  method HashKeySigns<D, H>(hashKeySign: D -> H, keySigns: seq<D>) returns (hashes: seq<H>)
    ensures hashes == LeafHashes(hashKeySign, keySigns)
    ensures |hashes| == |keySigns|
    ensures forall i :: 0 <= i < |hashes| ==> hashes[i] == hashKeySign(keySigns[i])
  {
    hashes := [];
    for i := 0 to |keySigns|
      invariant |hashes| == i
      invariant forall j :: 0 <= j < i ==> hashes[j] == hashKeySign(keySigns[j])
    {
      hashes := hashes + [hashKeySign(keySigns[i])];
    }
  }

  lemma {:induction false} FlatRoot<H>(h: (H, H) -> H, s: seq<H>)
    requires s != []
    ensures 0 < Pow2(Depth(|s|)) <= |s| <= |Flat(h, s)|
    ensures Flat(h, s)[|Flat(h, s)| - 1] == MerkleRoot(h, s[..Pow2(Depth(|s|))])
  {
    var d := Depth(|s|);
    DepthBounds(|s|);
    FlatEndsInRoot(h, s);
    FirstBlock(h, s, d);
    FlatLength(h, s);
  }

  lemma {:induction false} FirstBlock<H>(h: (H, H) -> H, s: seq<H>, d: nat)
    requires Shift(|s|, d) == 1
    ensures Pow2(d) <= |s| && Level(h, s, d)[0] == MerkleRoot(h, s[..Pow2(d)])
  {
    LevelIsMerkleRoot(h, s, d, 0);
    BlockIsSlice(s, d, 0);
    assert s[0 * Pow2(d)..(0 + 1) * Pow2(d)] == s[..Pow2(d)];
  }

  lemma LevelDone<H>(h: (H, H) -> H, done: seq<H>, current: seq<H>)
    requires current != []
    ensures done + Flat(h, current) == done + current + Flat(h, Pairs(h, current))
  {
    Regroup(done, current, Flat(h, Pairs(h, current)));
  }

  /** The builder's loop: it appends level after level to the leaves. */
  method AppendLevels<H>(h: (H, H) -> H, hashes: seq<H>) returns (treeHashes: seq<H>)
    ensures treeHashes == Flat(h, hashes)
  {
    treeHashes := hashes;
    var n := |hashes|;
    var offset := 0;
    ghost var done: seq<H>, current := [], hashes;
    while n > 0
      invariant offset == |done| && n == |current|
      invariant treeHashes == done + current
      invariant done + Flat(h, current) == Flat(h, hashes)
    {
      var i := 0;
      ghost var next := Pairs(h, current);
      while i < n - 1
        invariant 0 <= i <= n && i % 2 == 0
        invariant treeHashes == done + current + next[..i / 2]
      {
        PairAppended(h, done, current, treeHashes, offset, i);
        treeHashes := treeHashes + [h(treeHashes[offset + i], treeHashes[offset + i + 1])];
        i := i + 2;
      }
      assert next[..i / 2] == next;
      offset := offset + n;
      n := n / 2;
      LevelDone(h, done, current);
      done, current := done + current, next;
    }
  }

  /** The tree of these key signatures: leaf i is the hash of number i, and the root ends the array. */
  ghost predicate IsTreeOf<D, H>(hashKeySign: D -> H, h: (H, H) -> H, data: seq<D>, tree: Tree<D, H>) {
    && tree.leafAmount == |data| <= |tree.hashes|
    && (forall i :: 0 <= i < |data| ==> tree.hashes[i] == hashKeySign(data[i]))
    && tree.hashes == Flat(h, tree.hashes[..|data|])
    && tree.root == At(tree.hashes, |tree.hashes| - 1)
  }

  /** The flat array of all levels; its root covers the first 2^Depth leaves, and there is none without leaves. */
  method CreateTree<D, H>(hashKeySign: D -> H, h: (H, H) -> H, data: seq<D>) returns (tree: Tree<D, H>)
    ensures tree.data == data && tree.leafAmount == |data|
    ensures tree.hashes == Flat(h, LeafHashes(hashKeySign, data))
    ensures |data| <= |tree.hashes| == 2 * |data| - PopCount(|data|)
    ensures IsTreeOf(hashKeySign, h, data, tree)
    ensures data == [] ==> tree.root == None
    ensures data != [] ==>
              && 0 < Pow2(Depth(|data|)) <= |data|
              && tree.root == Some(MerkleRoot(h, LeafHashes(hashKeySign, data)[..Pow2(Depth(|data|))]))
    ensures |data| == 2 ==> tree.root == Some(h(hashKeySign(data[0]), hashKeySign(data[1])))
  {
    var hashes := HashKeySigns(hashKeySign, data);
    var treeHashes := AppendLevels(h, hashes);
    tree := Tree(treeHashes, At(treeHashes, |treeHashes| - 1), |hashes|, data);
    FlatSummary(h, hashes, treeHashes);
    if |data| == 2 {
      RootOverTwo(h, hashes);
    }
  }

  lemma {:induction false} RootOverTwo<H>(h: (H, H) -> H, s: seq<H>)
    requires |s| == 2
    ensures Pow2(Depth(2)) == 2
    ensures MerkleRoot(h, s[..2]) == h(s[0], s[1])
  {
    assert s[..2] == s && s[..1] == [s[0]] && s[1..] == [s[1]];
  }

  /** With i / 2 pairs of the next level appended, pair i / 2 is read from the current level. */
  lemma PairAppended<H>(h: (H, H) -> H, done: seq<H>, current: seq<H>, all: seq<H>, offset: nat, i: nat)
    requires i % 2 == 0 && i + 1 < |current| && offset == |done|
    requires all == done + current + Pairs(h, current)[..i / 2]
    ensures offset + i + 1 < |all|
    ensures all + [h(all[offset + i], all[offset + i + 1])] == done + current + Pairs(h, current)[..(i + 2) / 2]
  {
    var next, m := Pairs(h, current), i / 2;
    assert all[offset + i] == current[2 * m] && all[offset + i + 1] == current[2 * m + 1];
    assert next[..m + 1] == next[..m] + [next[m]];
  }

  lemma {:induction false} FlatSummary<H>(h: (H, H) -> H, s: seq<H>, flat: seq<H>)
    requires flat == Flat(h, s)
    ensures |s| <= |flat| == 2 * |s| - PopCount(|s|)
    ensures flat[..|s|] == s
    ensures s == [] ==> flat == []
    ensures s != [] ==>
              && 0 < Pow2(Depth(|s|)) <= |s|
              && flat[|flat| - 1] == MerkleRoot(h, s[..Pow2(Depth(|s|))])
  {
    FlatLength(h, s);
    if s != [] {
      FlatRoot(h, s);
    }
  }

  /** The state of the prover after the proofs of the first levels. */
  ghost predicate ProverAt<H>(hashes: seq<H>, n: nat, index: nat, proofs: seq<Option<H>>, offset: nat, len: nat, known: nat) {
    && len == Shift(n, |proofs|)
    && offset == Offset(n, |proofs|)
    && known == Shift(index, |proofs|)
    && |proofs| + Depth(len) == Depth(n)
    && forall k :: 0 <= k < |proofs| ==> proofs[k] == At(hashes, SiblingIndex(n, index, k))
  }

  lemma ProverStep<H>(hashes: seq<H>, n: nat, index: nat, proofs: seq<Option<H>>, offset: nat, len: nat, known: nat)
    requires ProverAt(hashes, n, index, proofs, offset, len, known) && len > 1
    ensures ProverAt(hashes, n, index, proofs + [At(hashes, SiblingIndex(n, index, |proofs|))],
                     offset + len, len / 2, known / 2)
  {
    OffsetStep(n, |proofs|);
    ShiftStep(n, |proofs|);
    ShiftStep(index, |proofs|);
  }

  lemma ProverDone<H>(hashes: seq<H>, n: nat, index: nat, proofs: seq<Option<H>>, offset: nat, len: nat, known: nat)
    requires ProverAt(hashes, n, index, proofs, offset, len, known) && len <= 1
    ensures proofs == ProofFor(hashes, n, index).proofs
  {
  }

  method PrepareProofs<D, H>(tree: Tree<D, H>, index: nat) returns (proof: Proof<H>)
    ensures proof == ProofFor(tree.hashes, tree.leafAmount, index)
    ensures proof.hash == At(tree.hashes, index)
  {
    var proofs: seq<Option<H>> := [];
    var offset := 0;
    var len := tree.leafAmount;
    var layerKnownHashIndex := index;
    while len > 1
      invariant ProverAt(tree.hashes, tree.leafAmount, index, proofs, offset, len, layerKnownHashIndex)
    {
      var knownHashIndex := offset + layerKnownHashIndex;
      var leftOfRight := knownHashIndex % 2;
      var hashIndex := knownHashIndex + (if leftOfRight != 0 then -1 else 1);
      ProverStep(tree.hashes, tree.leafAmount, index, proofs, offset, len, layerKnownHashIndex);
      proofs := proofs + [At(tree.hashes, hashIndex)];
      offset := offset + len;
      len := len / 2;
      layerKnownHashIndex := layerKnownHashIndex / 2;
    }
    ProverDone(tree.hashes, tree.leafAmount, index, proofs, offset, len, layerKnownHashIndex);
    proof := Proof(At(tree.hashes, index), proofs);
  }

  method CreateTreeFromProofs<H>(h: (H, H) -> H, hash: Option<H>, hashIndex: nat, leafAmount: nat,
                                 proofs: seq<Option<H>>)
    returns (calcRoot: Option<H>)
    ensures calcRoot == Climb(h, hash, hashIndex, leafAmount, proofs, |proofs|)
  {
    calcRoot := hash;
    var index := hashIndex;
    var offset := 0;
    var len := leafAmount;
    for i := 0 to |proofs|
      invariant calcRoot == Climb(h, hash, hashIndex, leafAmount, proofs, i)
      invariant index == RunningIndex(leafAmount, hashIndex, i)
      invariant offset == Offset(leafAmount, i) && len == Shift(leafAmount, i)
    {
      calcRoot := if index % 2 != 0 then HashPair(h, proofs[i], calcRoot) else HashPair(h, calcRoot, proofs[i]);
      OffsetStep(leafAmount, i);
      ShiftStep(leafAmount, i);
      offset := offset + len;
      index := offset + index / 2;
      len := len / 2;
    }
  }
}
