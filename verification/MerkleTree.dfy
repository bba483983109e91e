/**
 * The flat-array Merkle tree of the offchain key storage client: builder, prover and verifier.
 *
 * Each of the three does its own index arithmetic over one array that holds the levels one after
 * the other, leaves first.  The hash of a pair is a parameter; where injectivity matters it is
 * either assumed of that parameter or the free constructor `Node` is used.
 */
module MerkleTree {
  import opened Common

  datatype Tree<D, H> = Tree(hashes: seq<H>, root: Option<H>, leafAmount: nat, data: seq<D>)

  /** `None` stands for the undefined value of a read outside the array. */
  datatype Proof<H> = Proof(hash: Option<H>, proofs: seq<Option<H>>)

  // ---------------------------------------------------------------- the levels of the tree

  /** One level up: the hashes of neighbouring pairs.  An unpaired last hash is dropped. */
  function Pairs<H>(h: (H, H) -> H, s: seq<H>): (r: seq<H>)
    ensures |r| == |s| / 2
  {
    seq(|s| / 2, j requires 0 <= j < |s| / 2 => h(s[2 * j], s[2 * j + 1]))
  }

  function Level<H>(h: (H, H) -> H, s: seq<H>, k: nat): (r: seq<H>)
    ensures |r| == Shift(|s|, k)
    decreases k
  {
    if k == 0 then s else Level(h, Pairs(h, s), k - 1)
  }

  /** All the levels, one after the other. */
  function Flat<H>(h: (H, H) -> H, s: seq<H>): seq<H>
    decreases |s|
  {
    if |s| == 0 then [] else s + Flat(h, Pairs(h, s))
  }

  /** Where level k starts in the flat array over n leaves. */
  function Offset(n: nat, k: nat): nat {
    if k == 0 then 0 else n + Offset(n / 2, k - 1)
  }

  /** The number of levels above the leaves: the floor of log2. */
  function Depth(n: nat): nat {
    if n <= 1 then 0 else 1 + Depth(n / 2)
  }

  function PopCount(n: nat): nat {
    if n == 0 then 0 else n % 2 + PopCount(n / 2)
  }

  /** The textbook recursive root: split in halves, hash the two roots. */
  function MerkleRoot<H>(h: (H, H) -> H, s: seq<H>): H
    requires |s| > 0
    decreases |s|
  {
    if |s| == 1 then s[0]
    else h(MerkleRoot(h, s[..|s| / 2]), MerkleRoot(h, s[|s| / 2..]))
  }

  lemma LevelStep<H>(h: (H, H) -> H, s: seq<H>, k: nat)
    ensures Level(h, s, k + 1) == Pairs(h, Level(h, s, k))
    decreases k
  {
    if k > 0 {
      LevelStep(h, Pairs(h, s), k - 1);
    }
  }

  lemma OffsetStep(n: nat, k: nat)
    ensures Offset(n, k + 1) == Offset(n, k) + Shift(n, k)
  {
    if k > 0 {
      OffsetStep(n / 2, k - 1);
    }
  }

  /** 2^Depth(n) is the largest power of two that fits in n; above that level one hash is left. */
  lemma DepthBounds(n: nat)
    requires n > 0
    ensures Pow2(Depth(n)) <= n < 2 * Pow2(Depth(n))
    ensures Shift(n, Depth(n)) == 1
  {
    if n > 1 {
      DepthBounds(n / 2);
    }
  }

  /** A level k <= Depth(n) holds at least 2^(Depth(n) - k) hashes. */
  lemma LevelSize(n: nat, k: nat)
    requires n > 0 && k <= Depth(n)
    ensures Pow2(Depth(n) - k) <= Shift(n, k)
  {
    if k == 0 {
      DepthBounds(n);
    } else {
      LevelSize(n / 2, k - 1);
    }
  }

  lemma {:induction false} FlatLength<H>(h: (H, H) -> H, s: seq<H>)
    ensures |Flat(h, s)| == 2 * |s| - PopCount(|s|)
    decreases |s|
  {
    if |s| > 0 {
      FlatLength(h, Pairs(h, s));
    }
  }

  /** Level k sits at Offset(n, k) of the flat array. */
  lemma {:induction false} FlatHoldsLevel<H>(h: (H, H) -> H, s: seq<H>, k: nat, j: nat)
    requires j < Shift(|s|, k)
    ensures Offset(|s|, k) + j < |Flat(h, s)|
    ensures Flat(h, s)[Offset(|s|, k) + j] == Level(h, s, k)[j]
    decreases k
  {
    ShiftAtMost(|s|, k);
    if k > 0 {
      FlatHoldsLevel(h, Pairs(h, s), k - 1, j);
    }
  }

  /** The last hash of the flat array is the single hash of the top level. */
  lemma {:induction false} FlatEndsInRoot<H>(h: (H, H) -> H, s: seq<H>)
    requires |s| > 0
    ensures |Flat(h, s)| > 0 && Shift(|s|, Depth(|s|)) == 1
    ensures Flat(h, s)[|Flat(h, s)| - 1] == Level(h, s, Depth(|s|))[0]
    decreases |s|
  {
    DepthBounds(|s|);
    if |s| > 1 {
      FlatEndsInRoot(h, Pairs(h, s));
    } else {
      assert Flat(h, s) == s;
    }
  }

  lemma PairsOfSlice<H>(h: (H, H) -> H, s: seq<H>, a: nat, b: nat)
    requires a <= b && 2 * b <= |s|
    ensures Pairs(h, s[2 * a..2 * b]) == Pairs(h, s)[a..b]
  {
    assert |s[2 * a..2 * b]| / 2 == b - a;
    forall j | 0 <= j < b - a
      ensures Pairs(h, s[2 * a..2 * b])[j] == Pairs(h, s)[a..b][j]
    {
      assert s[2 * a..2 * b][2 * j] == s[2 * (a + j)];
    }
  }

  /** The root of two blocks put together is the hash of their roots. */
  lemma RootOfTwo<H>(h: (H, H) -> H, left: seq<H>, right: seq<H>)
    requires |left| == |right| > 0
    ensures MerkleRoot(h, left + right) == h(MerkleRoot(h, left), MerkleRoot(h, right))
  {
    assert (left + right)[..|left|] == left && (left + right)[|left|..] == right;
  }

  lemma PairsOfTwo<H>(h: (H, H) -> H, left: seq<H>, right: seq<H>)
    requires |left| % 2 == 0
    ensures Pairs(h, left + right) == Pairs(h, left) + Pairs(h, right)
  {
    var m := |left| / 2;
    PairsOfSlice(h, left + right, 0, m);
    assert (left + right)[2 * 0..2 * m] == left;
    forall j | 0 <= j < |right| / 2
      ensures Pairs(h, left + right)[m + j] == Pairs(h, right)[j]
    {
      assert (left + right)[2 * (m + j)] == right[2 * j] && (left + right)[2 * (m + j) + 1] == right[2 * j + 1];
    }
  }

  /** Hashing the pairs first does not change the root of a power-of-two block. */
  lemma {:induction false} RootOfPairs<H>(h: (H, H) -> H, s: seq<H>, k: nat)
    requires k > 0 && |s| == Pow2(k)
    ensures MerkleRoot(h, Pairs(h, s)) == MerkleRoot(h, s)
    decreases k
  {
    var half := Pow2(k - 1);
    var left, right := s[..half], s[half..];
    if k > 1 {
      assert half == 2 * Pow2(k - 2);
      RootOfPairs(h, left, k - 1);
      RootOfPairs(h, right, k - 1);
      RootOfHalves(h, left, right);
      assert s == left + right;
    } else {
      assert |s| == 2;
      RootOfOnePair(h, s);
    }
  }

  lemma RootOfHalves<H>(h: (H, H) -> H, left: seq<H>, right: seq<H>)
    requires |left| == |right| && |left| % 2 == 0 && |left| > 0
    requires MerkleRoot(h, Pairs(h, left)) == MerkleRoot(h, left)
    requires MerkleRoot(h, Pairs(h, right)) == MerkleRoot(h, right)
    ensures MerkleRoot(h, Pairs(h, left + right)) == MerkleRoot(h, left + right)
  {
    PairsOfTwo(h, left, right);
    RootOfTwo(h, Pairs(h, left), Pairs(h, right));
    RootOfTwo(h, left, right);
  }

  lemma RootOfOnePair<H>(h: (H, H) -> H, s: seq<H>)
    requires |s| == 2
    ensures MerkleRoot(h, Pairs(h, s)) == MerkleRoot(h, s)
  {
    assert s[..1] == [s[0]] && s[1..] == [s[1]];
    assert Pairs(h, s) == [h(s[0], s[1])];
  }

  /** The 2^k leaves under hash j of level k. */
  function Block<H>(s: seq<H>, k: nat, j: nat): (b: seq<H>)
    requires j < Shift(|s|, k)
    ensures |b| == Pow2(k)
  {
    ShiftIsFloor(|s|, k);
    ScaleSteps(j, Shift(|s|, k), k);
    s[Scale(j, k)..Scale(j + 1, k)]
  }

  lemma BlockOfPairs<H>(h: (H, H) -> H, s: seq<H>, k: nat, j: nat)
    requires k > 0 && j < Shift(|s|, k)
    ensures Pairs(h, Block(s, k, j)) == Block(Pairs(h, s), k - 1, j)
  {
    var a, b := Scale(j, k - 1), Scale(j + 1, k - 1);
    ShiftIsFloor(|s|, k);
    ScaleSteps(j, Shift(|s|, k), k);
    PairsOfSlice(h, s, a, b);
  }

  /**
   * The builder refines the recursive tree, for every leaf count: hash j of level k is the
   * recursive root of leaves [j * 2^k, (j + 1) * 2^k).
   */
  lemma {:induction false} LevelIsMerkleRoot<H>(h: (H, H) -> H, s: seq<H>, k: nat, j: nat)
    requires j < Shift(|s|, k)
    ensures Level(h, s, k)[j] == MerkleRoot(h, Block(s, k, j))
    decreases k
  {
    if k > 0 {
      LevelIsMerkleRoot(h, Pairs(h, s), k - 1, j);
      BlockOfPairs(h, s, k, j);
      RootOfPairs(h, Block(s, k, j), k);
    } else {
      assert Block(s, 0, j) == [s[j]];
    }
  }

  /** Block j is leaves [j * 2^k, (j + 1) * 2^k). */
  lemma {:induction false} BlockIsSlice<H>(s: seq<H>, k: nat, j: nat)
    requires j < Shift(|s|, k)
    ensures 0 <= j * Pow2(k) <= (j + 1) * Pow2(k) <= |s|
    ensures Block(s, k, j) == s[j * Pow2(k)..(j + 1) * Pow2(k)]
  {
    ShiftIsFloor(|s|, k);
    ScaleSteps(j, Shift(|s|, k), k);
    ScaleIsProduct(j, k);
    ScaleIsProduct(j + 1, k);
  }
}
