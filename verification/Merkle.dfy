/**
 The fixed-depth Merkle tree of leaf commitments: the level-by-level loops of the
 implementation, proved against the recursive tree of HashTree.
 */
module Merkle {
  import opened Wrappers
  import opened Field
  import opened Mimc
  import opened HashTree

  const EMPTY_LEAF: Fr := 0

  datatype MerkleError = Full | IndexOutOfRange

  datatype MerkleWitness = MerkleWitness(pathElements: seq<Fr>, pathIndices: seq<bool>)

  /** The leaves filled up to 2^depth slots with the empty leaf. */
  function Padded(leaves: seq<Fr>, depth: nat): (layer: seq<Fr>)
    requires |leaves| <= Pow2(depth)
    ensures |layer| == Pow2(depth) && leaves <= layer
    ensures forall k :: |leaves| <= k < |layer| ==> layer[k] == 0
  {
    leaves + seq(Pow2(depth) - |leaves|, _ => EMPTY_LEAF)
  }

  /** The root that a list of leaves stands for. */
  function RootOf(h: (Fr, Fr) -> Fr, leaves: seq<Fr>, depth: nat): Fr
    requires |leaves| <= Pow2(depth)
  {
    TreeRoot(h, depth, Padded(leaves, depth))
  }

  lemma LevelStep(h: (Fr, Fr) -> Fr, level: seq<Fr>, i: nat)
    requires |level| % 2 == 0 && i % 2 == 0 && i < |level|
    ensures NextLevel(h, level[i..]) == [h(level[i], level[i + 1])] + NextLevel(h, level[i + 2..])
  {
    assert level[i..][2..] == level[i + 2..];
  }

  /** Hashes a level pair by pair. */
  method HashPairs(level: seq<Fr>, constants: seq<Fr>) returns (next: seq<Fr>)
    requires |level| % 2 == 0
    ensures next == NextLevel(Hash(constants), level)
  {
    hide NextLevel, Hash2;
    ghost var h := Hash(constants);
    next := [];
    var i := 0;
    while i < |level|
      invariant i % 2 == 0 && i <= |level|
      invariant next + NextLevel(h, level[i..]) == NextLevel(h, level)
    {
      LevelStep(h, level, i);
      next := next + [Hash2(level[i], level[i + 1], constants)];
      i := i + 2;
    }
  }

  class MerkleTree {
    const depth: nat
    const constants: seq<Fr>
    var leaves: seq<Fr>

    constructor (depth: nat, constants: seq<Fr>)
      ensures this.depth == depth && this.constants == constants
      ensures Valid() && leaves == []
    {
      this.depth := depth;
      this.constants := constants;
      leaves := [];
    }

    constructor Of(depth: nat, constants: seq<Fr>, leaves: seq<Fr>)
      requires |leaves| <= Pow2(depth)
      ensures this.depth == depth && this.constants == constants
      ensures Valid() && this.leaves == leaves
    {
      this.depth := depth;
      this.constants := constants;
      this.leaves := leaves;
    }

    ghost predicate Valid()
      reads this
    {
      |leaves| <= Pow2(depth)
    }

    /** Rebuilds a tree from stored leaves. It fails exactly on more leaves than the tree has slots. */
    static method FromLeaves(depth: nat, constants: seq<Fr>, leaves: seq<Fr>)
      returns (r: Result<MerkleTree, MerkleError>)
      ensures r.Failure? <==> |leaves| > Pow2(depth)
      ensures r.Failure? ==> r.error == Full
      ensures r.Success? ==>
        && fresh(r.value) && r.value.Valid() && r.value.leaves == leaves
        && r.value.depth == depth && r.value.constants == constants
    {
      if |leaves| > Pow2(depth) {
        return Failure(Full);
      }
      var tree := new MerkleTree.Of(depth, constants, leaves);
      r := Success(tree);
    }

    /** Appends a leaf; a full tree refuses it and stays as it is. */
    method Push(leaf: Fr) returns (r: Result<nat, MerkleError>)
      requires Valid()
      modifies `leaves
      ensures Valid()
      ensures r == if old(|leaves|) == Pow2(depth) then Failure(Full) else Success(old(|leaves|))
      ensures leaves == if r.Success? then old(leaves) + [leaf] else old(leaves)
    {
      if |leaves| >= Pow2(depth) {
        return Failure(Full);
      }
      leaves := leaves + [leaf];
      r := Success(|leaves| - 1);
    }

    /** The halving loop computes the root of the recursive tree. */
    method Root() returns (root: Fr)
      requires Valid()
      ensures root == RootOf(Hash(constants), leaves, depth)
    {
      hide TreeRoot, NextLevel, Hash, Padded;
      ghost var h := Hash(constants);
      var level := Padded(leaves, depth);
      ghost var d := depth;
      while |level| > 1
        invariant |level| == Pow2(d)
        invariant TreeRoot(h, d, level) == RootOf(h, leaves, depth)
      {
        RootOfNextLevel(h, d - 1, level);
        level := HashPairs(level, constants);
        d := d - 1;
      }
      RootOfLeaf(h, level);
      root := level[0];
    }

    /**
     A witness exists exactly for the positions in use. It has one sibling and one bit for each
     level, its bits spell the index, and it folds the leaf to the root.
     */
    method Witness(index: nat) returns (r: Result<MerkleWitness, MerkleError>)
      requires Valid()
      ensures r.Failure? <==> index >= |leaves|
      ensures r.Failure? ==> r.error == IndexOutOfRange
      ensures r.Success? ==>
        && r.value.pathElements == Siblings(Hash(constants), depth, Padded(leaves, depth), index)
        && r.value.pathIndices == Digits(depth, index)
      ensures r.Success? ==>
        && IndexOf(r.value.pathIndices) == index
        && Fold(Hash(constants), leaves[index], r.value.pathElements, r.value.pathIndices)
           == RootOf(Hash(constants), leaves, depth)
    {
      hide TreeRoot, NextLevel, Hash, Padded, Siblings, Digits, Fold, IndexOf, Pow2;
      if index >= |leaves| {
        return Failure(IndexOutOfRange);
      }
      ghost var h := Hash(constants);
      var level := Padded(leaves, depth);
      var elements, indices := [], [];
      var idx: nat := index;
      for i := 0 to depth
        invariant |level| == Pow2(depth - i) && idx < |level|
        invariant elements + Siblings(h, depth - i, level, idx) == Siblings(h, depth, Padded(leaves, depth), index)
        invariant indices + Digits(depth - i, idx) == Digits(depth, index)
      {
        PathStep(h, depth - i, level, idx);
        AppendAssoc(elements, [level[Flip(idx)]], Siblings(h, depth - i - 1, NextLevel(h, level), idx / 2));
        AppendAssoc(indices, [idx % 2 == 1], Digits(depth - i - 1, idx / 2));
        elements := elements + [level[Flip(idx)]];
        indices := indices + [idx % 2 == 1];
        level := HashPairs(level, constants);
        idx := idx / 2;
      }
      PathEnd(h, level, idx);
      DigitsRoundTrip(depth, index);
      FoldOfSiblings(h, depth, Padded(leaves, depth), index);
      r := Success(MerkleWitness(elements, indices));
    }
  }

  lemma PathEnd(h: (Fr, Fr) -> Fr, level: seq<Fr>, index: nat)
    requires |level| == Pow2(0) && index < |level|
    ensures Siblings(h, 0, level, index) == [] && Digits(0, index) == []
  {
  }

  lemma PathStep(h: (Fr, Fr) -> Fr, d: nat, level: seq<Fr>, index: nat)
    requires d > 0 && |level| == Pow2(d) && index < |level|
    ensures |level| == 2 * Pow2(d - 1) && Flip(index) < |level| && index / 2 < Pow2(d - 1)
    ensures Siblings(h, d, level, index) == [level[Flip(index)]] + Siblings(h, d - 1, NextLevel(h, level), index / 2)
    ensures Digits(d, index) == [index % 2 == 1] + Digits(d - 1, index / 2)
  {
  }

  // ---------- what a root says about the leaves ----------

  /**
   Padding hides trailing empty leaves and nothing else: a list and a longer one fill the same
   slots exactly when the longer one only appends empty leaves.
   */
  lemma PaddedEqual(shorter: seq<Fr>, longer: seq<Fr>, depth: nat)
    requires |shorter| <= |longer| <= Pow2(depth)
    ensures Padded(shorter, depth) == Padded(longer, depth)
       <==> shorter <= longer && forall k :: |shorter| <= k < |longer| ==> longer[k] == 0
  {
    var a, b := Padded(shorter, depth), Padded(longer, depth);
    if a == b {
      assert forall k :: 0 <= k < |shorter| ==> shorter[k] == a[k] == b[k] == longer[k];
      assert forall k :: |shorter| <= k < |longer| ==> longer[k] == b[k] == a[k];
    }
    if shorter <= longer && forall k :: |shorter| <= k < |longer| ==> longer[k] == 0 {
      assert forall k :: 0 <= k < |a| ==> a[k] == b[k];
    }
  }

  /** The collision, if any, between the trees over two lists of leaves. */
  function LeavesCollision(h: (Fr, Fr) -> Fr, a: seq<Fr>, b: seq<Fr>, depth: nat): Option<Collision<Fr>>
    requires |a| <= Pow2(depth) && |b| <= Pow2(depth)
  {
    LayerCollision(h, depth, Padded(a, depth), Padded(b, depth))
  }

  predicate AllEmpty(leaves: seq<Fr>) {
    forall k :: 0 <= k < |leaves| ==> leaves[k] == 0
  }

  /**
   A tree that has only grown keeps its root exactly when every appended leaf is the empty one,
   unless the two trees exhibit a collision.
   */
  lemma GrownTreeRoot(h: (Fr, Fr) -> Fr, before: seq<Fr>, after: seq<Fr>, depth: nat)
    requires |after| <= Pow2(depth) && before <= after
    ensures AllEmpty(after[|before|..]) ==> RootOf(h, before, depth) == RootOf(h, after, depth)
    ensures var c := LeavesCollision(h, before, after, depth);
      RootOf(h, before, depth) == RootOf(h, after, depth)
      ==> (c.Some? && Collides(h, c.value)) || AllEmpty(after[|before|..])
  {
    hide TreeRoot, LayerCollision, Padded;
    PaddedEqual(before, after, depth);
    var appended := after[|before|..];
    assert forall k :: |before| <= k < |after| ==> after[k] == appended[k - |before|];
    if RootOf(h, before, depth) == RootOf(h, after, depth) {
      RootBinds(h, depth, Padded(before, depth), Padded(after, depth));
    }
  }

  /**
   A path that folds to the root of a tree leads to the leaf in the slot that its bits spell, or
   to an empty slot if it starts from the empty leaf, or else it yields a collision. Slot and path
   determine each other: the path is the one that the tree itself has for that slot.
   */
  lemma PathLeadsToLeaf(h: (Fr, Fr) -> Fr, leaves: seq<Fr>, depth: nat, cur: Fr, siblings: seq<Fr>, rights: seq<bool>)
    requires |leaves| <= Pow2(depth) && |siblings| == |rights| == depth
    requires Fold(h, cur, siblings, rights) == RootOf(h, leaves, depth)
    ensures var c, k := PathCollision(h, depth, Padded(leaves, depth), cur, siblings, rights), IndexOf(rights);
      if c.Some? then Collides(h, c.value)
      else
        && (if k < |leaves| then leaves[k] == cur else cur == 0)
        && siblings == Siblings(h, depth, Padded(leaves, depth), k) && rights == Digits(depth, k)
  {
    hide TreeRoot, PathCollision, Fold, Siblings, Digits;
    PathBinds(h, depth, Padded(leaves, depth), cur, siblings, rights);
  }
}
