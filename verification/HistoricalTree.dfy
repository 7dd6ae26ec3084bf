/** The Merkle tree with a history: a flat map from (height, x, count) to hashes,
    from which any past root or proof is read back. */
module HistoricalTrees {
  import opened Wrappers
  import opened Bytes
  import opened Hashing
  import opened MerkleSpec

  const MESSAGE_TREE_HEIGHT := 32
  const SNAPSHOT_TREE_HEIGHT := 6

  datatype StateKey = StateKey(h: nat, x: nat, count: nat)

  type Elements = map<StateKey, Bytes>

  /** Go reads a missing map entry as nil. */
  function Get(state: Elements, key: StateKey): Bytes
  {
    if key in state then state[key] else []
  }

  /** The three-stage lookup. */
  function FetchTreeElementState(
      state: Elements, zeroHashes: seq<Bytes>, h: nat, x: nat, count: nat): Bytes
    requires h < |zeroHashes|
  {
    var firstChildLeafIndex := U64(Shl(x, h));
    var childLeafsAmount := U64(Shl(1, h));
    if count <= firstChildLeafIndex then zeroHashes[h]
    else if count <= U64(firstChildLeafIndex + childLeafsAmount) then
      Get(state, StateKey(h, x, count))
    else Get(state, StateKey(h, x, U32(firstChildLeafIndex + childLeafsAmount)))
  }

  /** An element that the tree of height `top` has. */
  predicate InRange(h: nat, x: nat, top: nat)
  {
    h <= top && Shl(x + 1, h) <= Shl(1, top)
  }

  // ----- the meaning of the map -----

  predicate Saved(k: Hash, state: Elements, leaves: seq<Bytes>, h: nat, x: nat, count: nat)
    requires count <= |leaves|
  {
    && StateKey(h, x, count) in state
    && state[StateKey(h, x, count)] == Node(k, leaves[..count], h, x)
  }

  /** Stage B: some leaf below the element has been inserted, and the last one inserted is
      below it. */
  predicate StageB(h: nat, x: nat, count: nat)
  {
    Shl(x, h) < count <= Shl(x + 1, h)
  }

  /** The map holds the stage-B values of every element for every count up to `n`. */
  ghost predicate History(k: Hash, state: Elements, leaves: seq<Bytes>, n: nat, top: nat)
    requires n <= |leaves|
  {
    forall h: nat, x: nat, count: nat ::
      h <= top && StageB(h, x, count) && count <= n ==> Saved(k, state, leaves, h, x, count)
  }

  predicate AreZeroHashes(zeroHashes: seq<Bytes>, top: nat)
  {
    |zeroHashes| == top + 1 && forall h :: 0 <= h <= top ==> zeroHashes[h] == ZERO32
  }

  lemma NoOverflow(h: nat, x: nat, top: nat)
    requires top < 64 && InRange(h, x, top)
    ensures U64(Shl(x, h)) == Shl(x, h) && U64(Shl(1, h)) == Shl(1, h)
    ensures U64(Shl(x, h) + Shl(1, h)) == Shl(x, h) + Shl(1, h) == Shl(x + 1, h)
  {
    ShlGrows(top, 63);
    Shl63();
    ShlMonotone(x, x + 1, h);
    ShlAdd(x, 1, h);
  }

  /** The lookup finds the recursive tree's element wherever the key it needs was saved. */
  lemma FetchIsNode(
      k: Hash, state: Elements, zeroHashes: seq<Bytes>, leaves: seq<Bytes>,
      h: nat, x: nat, count: nat, top: nat)
    requires top < 64 && InRange(h, x, top) && AreZeroHashes(zeroHashes, top)
    requires count <= |leaves| && count < 0x1_0000_0000
    requires StageB(h, x, count) ==> Saved(k, state, leaves, h, x, count)
    requires Shl(x + 1, h) < count ==> Saved(k, state, leaves, h, x, Shl(x + 1, h))
    ensures FetchTreeElementState(state, zeroHashes, h, x, count) == Node(k, leaves[..count], h, x)
  {
    NoOverflow(h, x, top);
    if count <= Shl(x, h) {
      StageA(k, leaves[..count], h, x);
    } else if count > Shl(x + 1, h) {
      StageC(k, leaves[..count], h, x);
      assert leaves[..count][..Shl(x + 1, h)] == leaves[..Shl(x + 1, h)];
    }
  }

  /** On the level below, `y` is the inserted leaf's own ancestor, or the ancestor's sibling. */
  lemma FetchBesidePath(
      k: Hash, state: Elements, zeroHashes: seq<Bytes>, leaves: seq<Bytes>,
      h: nat, y: nat, top: nat)
    requires top < 64 && InRange(h, y, top) && AreZeroHashes(zeroHashes, top)
    requires 0 < |leaves| < 0x1_0000_0000
    requires History(k, state, leaves, |leaves| - 1, top)
    requires Saved(k, state, leaves, h, Shr(|leaves| - 1, h), |leaves|)
    ensures FetchTreeElementState(state, zeroHashes, h, y, |leaves|) == Node(k, leaves, h, y)
  {
    var count := |leaves|;
    if StageB(h, y, count) {
      ShrUnique(count - 1, h, y);
    }
    if Shl(y + 1, h) < count {
      ShlMonotone(y, y + 1, h);
      assert StageB(h, y, Shl(y + 1, h));
    }
    FetchIsNode(k, state, zeroHashes, leaves, h, y, count, top);
    assert leaves[..count] == leaves;
  }

  lemma WithinTop(index: nat, h: nat, top: nat)
    requires h <= top && index < Shl(1, top)
    ensures Shr(index, h) < Shl(1, top - h) && InRange(h, Shr(index, h), top)
  {
    ShrBounds(index, h);
    ShlShl(1, top - h, h);
    if Shl(1, top - h) <= Shr(index, h) {
      ShlMonotone(Shl(1, top - h), Shr(index, h), h);
    }
    ShlMonotone(Shr(index, h) + 1, Shl(1, top - h), h);
  }

  /** Both children of the leaf's ancestor are elements of the tree. */
  lemma PathInRange(index: nat, h: nat, top: nat)
    requires 0 < h <= top && index < Shl(1, top)
    ensures InRange(h - 1, 2 * Shr(index, h), top)
    ensures InRange(h - 1, 2 * Shr(index, h) + 1, top)
  {
    WithinTop(index, h, top);
    ShlMonotone(2 * Shr(index, h) + 1, 2 * Shr(index, h) + 2, h - 1);
  }

  /** Every ancestor of the last leaf, up to level `top`, has been saved. */
  ghost predicate PathSaved(k: Hash, state: Elements, leaves: seq<Bytes>, top: nat)
    requires 0 < |leaves|
  {
    forall h: nat {:trigger Shr(|leaves| - 1, h)} ::
      h <= top ==> Saved(k, state, leaves, h, Shr(|leaves| - 1, h), |leaves|)
  }

  /** The elements on the path of the last leaf complete the history. */
  lemma HistoryExtends(k: Hash, state: Elements, leaves: seq<Bytes>, top: nat)
    requires 0 < |leaves| && History(k, state, leaves, |leaves| - 1, top)
    requires PathSaved(k, state, leaves, top)
    ensures History(k, state, leaves, |leaves|, top)
  {
    forall h: nat, x: nat | h <= top && StageB(h, x, |leaves|)
      ensures Saved(k, state, leaves, h, x, |leaves|)
    {
      ShrUnique(|leaves| - 1, h, x);
    }
  }

  /** Saving the first level of the new leaf. */
  lemma LeafSaved(k: Hash, state: Elements, leaves: seq<Bytes>, item: Bytes, top: nat)
    requires History(k, state, leaves, |leaves|, top)
    ensures var state', leaves' := state[StateKey(0, |leaves|, |leaves| + 1) := item], leaves + [item];
            History(k, state', leaves', |leaves|, top) && PathSaved(k, state', leaves', 0)
  {
    var state', leaves' := state[StateKey(0, |leaves|, |leaves| + 1) := item], leaves + [item];
    assert leaves'[..|leaves'|] == leaves';
    forall h: nat, x: nat, count: nat | h <= top && StageB(h, x, count) && count <= |leaves|
      ensures Saved(k, state', leaves', h, x, count)
    {
      assert Saved(k, state, leaves, h, x, count);
      assert leaves'[..count] == leaves[..count];
    }
  }

  /** Saving one more level of the path keeps everything that was saved before. */
  lemma LevelAdded(k: Hash, state: Elements, leaves: seq<Bytes>, h: nat, top: nat)
    requires 0 < h <= top && 0 < |leaves|
    requires History(k, state, leaves, |leaves| - 1, top) && PathSaved(k, state, leaves, h - 1)
    ensures var state' := state[StateKey(h, Shr(|leaves| - 1, h), |leaves|)
                                := Node(k, leaves, h, Shr(|leaves| - 1, h))];
            History(k, state', leaves, |leaves| - 1, top) && PathSaved(k, state', leaves, h)
  {
    var x := Shr(|leaves| - 1, h);
    var state' := state[StateKey(h, x, |leaves|) := Node(k, leaves, h, x)];
    forall g: nat, y: nat, count: nat | g <= top && StageB(g, y, count) && count <= |leaves| - 1
      ensures Saved(k, state', leaves, g, y, count)
    {
      assert Saved(k, state, leaves, g, y, count);
    }
    assert leaves[..|leaves|] == leaves;
    forall g: nat {:trigger Shr(|leaves| - 1, g)} | g <= h
      ensures Saved(k, state', leaves, g, Shr(|leaves| - 1, g), |leaves|)
    {
      assert g < h ==> Saved(k, state, leaves, g, Shr(|leaves| - 1, g), |leaves|);
    }
  }

  /** Both children of the leaf's ancestor on level `h` are fetched right. */
  lemma ChildFetched(
      k: Hash, state: Elements, zeroHashes: seq<Bytes>, leaves: seq<Bytes>, h: nat, y: nat, top: nat)
    requires top < 64 && 0 < h <= top && AreZeroHashes(zeroHashes, top)
    requires 0 < |leaves| < 0x1_0000_0000 && |leaves| <= Shl(1, top)
    requires History(k, state, leaves, |leaves| - 1, top)
    requires Saved(k, state, leaves, h - 1, Shr(|leaves| - 1, h - 1), |leaves|)
    requires y / 2 == Shr(|leaves| - 1, h)
    ensures FetchTreeElementState(state, zeroHashes, h - 1, y, |leaves|) == Node(k, leaves, h - 1, y)
  {
    PathInRange(|leaves| - 1, h, top);
    assert y == 2 * (y / 2) || y == 2 * (y / 2) + 1;
    FetchBesidePath(k, state, zeroHashes, leaves, h - 1, y, top);
  }

  /** One level up: the parent of the two children is what the map should hold there. */
  lemma LevelSaved(
      k: Hash, state: Elements, leaves: seq<Bytes>, left: Bytes, right: Bytes, h: nat, x: nat, top: nat)
    requires 0 < h <= top && 0 < |leaves| && x == Shr(|leaves| - 1, h)
    requires History(k, state, leaves, |leaves| - 1, top) && PathSaved(k, state, leaves, h - 1)
    requires left == Node(k, leaves, h - 1, 2 * x) && right == Node(k, leaves, h - 1, 2 * x + 1)
    ensures var state' := state[StateKey(h, x, |leaves|) := GetParent(k, left, right)];
            History(k, state', leaves, |leaves| - 1, top) && PathSaved(k, state', leaves, h)
  {
    assert Node(k, leaves, h, x) == GetParent(k, left, right);
    LevelAdded(k, state, leaves, h, top);
  }

  /** Once written, what is read about the past never changes: any two valid histories, one of
      which extends the other's leaves, answer alike. */
  lemma PastUnchanged(
      k: Hash, state: Elements, leaves: seq<Bytes>, state': Elements, leaves': seq<Bytes>,
      zeroHashes: seq<Bytes>, h: nat, x: nat, count: nat, top: nat)
    requires top < 64 && InRange(h, x, top) && AreZeroHashes(zeroHashes, top)
    requires leaves <= leaves' && count <= |leaves| && |leaves'| < 0x1_0000_0000
    requires History(k, state, leaves, |leaves|, top)
    requires History(k, state', leaves', |leaves'|, top)
    ensures FetchTreeElementState(state', zeroHashes, h, x, count)
         == FetchTreeElementState(state, zeroHashes, h, x, count)
  {
    if Shl(x + 1, h) < count {
      ShlMonotone(x, x + 1, h);
      assert StageB(h, x, Shl(x + 1, h));
    }
    FetchIsNode(k, state, zeroHashes, leaves, h, x, count, top);
    FetchIsNode(k, state', zeroHashes, leaves', h, x, count, top);
    assert leaves'[..count] == leaves[..count];
  }

  // ----- the tree -----

  class HistoricalTree {
    const k: Hash
    const treeHeight: nat
    const zeroHashes: seq<Bytes>
    var state: Elements
    var treeCount: nat
    /** Everything ever inserted, in order. */
    ghost var leaves: seq<Bytes>

    ghost predicate Valid()
      reads this
    {
      && treeHeight < 64
      && |leaves| == treeCount < 0x1_0000_0000
      && treeCount <= Shl(1, treeHeight)
      && AreZeroHashes(zeroHashes, treeHeight)
      && History(k, state, leaves, treeCount, treeHeight)
    }

    constructor (k: Hash, treeHeight: nat)
      requires treeHeight < 64
      ensures Valid() && leaves == []
      ensures this.k == k && this.treeHeight == treeHeight
    {
      var z := GenerateZeroHashes(k, treeHeight);
      this.k, this.treeHeight, zeroHashes := k, treeHeight, z;
      state, treeCount, leaves := map[], 0, [];
    }

    static method GenerateZeroHashes(k: Hash, treeHeight: nat) returns (zeroHashes: seq<Bytes>)
      ensures AreZeroHashes(zeroHashes, treeHeight)
      ensures forall h :: 0 <= h <= treeHeight ==> zeroHashes[h] == Node(k, [], h, 0)
    {
      zeroHashes := [ZERO32];
      for h := 0 to treeHeight
        invariant AreZeroHashes(zeroHashes, h)
      {
        zeroHashes := zeroHashes + [GetParent(k, zeroHashes[h], zeroHashes[h])];
      }
      forall h | 0 <= h <= treeHeight
        ensures zeroHashes[h] == Node(k, [], h, 0)
      {
        EmptyNode(k, h, 0);
      }
    }

    static method NewTreeFromItems(k: Hash, items: seq<Bytes>, treeHeight: nat)
      returns (tree: HistoricalTree)
      requires treeHeight < 64 && |items| <= Shl(1, treeHeight) && |items| < 0x1_0000_0000
      ensures fresh(tree) && tree.Valid() && tree.leaves == items
      ensures tree.k == k && tree.treeHeight == treeHeight
    {
      tree := new HistoricalTree(k, treeHeight);
      for i := 0 to |items|
        invariant tree.Valid() && tree.leaves == items[..i]
        invariant tree.k == k && tree.treeHeight == treeHeight
      {
        tree.Insert(items[i]);
      }
    }

    /** Element (h, x) as it was when `count` leaves had been inserted. */
    function Fetch(h: nat, x: nat, count: nat): Bytes
      requires h < |zeroHashes|
      reads this
    {
      FetchTreeElementState(state, zeroHashes, h, x, count)
    }

    /** Every element of every past tree can still be read. */
    lemma FetchCorrect(h: nat, x: nat, count: nat)
      requires Valid() && count <= treeCount && InRange(h, x, treeHeight)
      ensures Fetch(h, x, count) == Node(k, leaves[..count], h, x)
    {
      if Shl(x + 1, h) < count {
        ShlMonotone(x, x + 1, h);
        assert StageB(h, x, Shl(x + 1, h));
      }
      FetchIsNode(k, state, zeroHashes, leaves, h, x, count, treeHeight);
    }

    /** Between the insertion of the last leaf and the recount: levels up to `h` are saved. */
    ghost predicate Climbed(h: nat)
      reads this
    {
      && treeHeight < 64 && AreZeroHashes(zeroHashes, treeHeight)
      && 0 < |leaves| < 0x1_0000_0000 && |leaves| <= Shl(1, treeHeight)
      && History(k, state, leaves, |leaves| - 1, treeHeight)
      && PathSaved(k, state, leaves, h)
    }

    /** Appends the leaf. Levels are recomputed from the leaf to the root. */
    method Insert(item: Bytes)
      requires Valid() && treeCount < Shl(1, treeHeight) && treeCount + 1 < 0x1_0000_0000
      modifies this
      ensures Valid() && leaves == old(leaves) + [item]
    {
      var x := treeCount;
      var newCount := U32(x + 1);
      leaves := leaves + [item];
      state := state[StateKey(0, x, newCount) := item];
      LeafSaved(k, old(state), old(leaves), item, treeHeight);
      for h := 1 to treeHeight + 1
        invariant leaves == old(leaves) + [item] && newCount == |leaves|
        invariant x == Shr(|leaves| - 1, h - 1)
        invariant Climbed(h - 1)
      {
        x := x / 2;
        SaveParent(h, x, newCount);
      }
      treeCount := newCount;
      HistoryExtends(k, state, leaves, treeHeight);
    }

    /** One round of the loop in Insert. */
    method SaveParent(h: nat, x: nat, newCount: nat)
      requires 0 < h <= treeHeight && Climbed(h - 1) && newCount == |leaves|
      requires x == Shr(|leaves| - 1, h - 1) / 2
      modifies this`state
      ensures Climbed(h) && x == Shr(|leaves| - 1, h)
    {
      ShrStep(|leaves| - 1, h - 1);
      assert Saved(k, state, leaves, h - 1, Shr(|leaves| - 1, h - 1), |leaves|);
      ChildFetched(k, state, zeroHashes, leaves, h, 2 * x, treeHeight);
      ChildFetched(k, state, zeroHashes, leaves, h, 2 * x + 1, treeHeight);
      var leftChild := Fetch(h - 1, 2 * x, newCount);
      var rightChild := Fetch(h - 1, 2 * x + 1, newCount);
      LevelSaved(k, state, leaves, leftChild, rightChild, h, x, treeHeight);
      state := state[StateKey(h, x, newCount) := GetParent(k, leftChild, rightChild)];
    }

    // ----- reading -----

    function NumOfItems(): nat
      reads this
    {
      treeCount
    }

    method Items() returns (items: seq<Bytes>)
      requires Valid()
      ensures items == leaves
    {
      items := [];
      for x := 0 to treeCount
        invariant items == leaves[..x]
      {
        LeafInRange(x);
        FetchCorrect(0, x, treeCount);
        items := items + [Fetch(0, x, treeCount)];
      }
    }

    method Item(index: nat) returns (item: Result<Bytes>)
      requires Valid()
      ensures item == if index < |leaves| then Ok(leaves[index]) else Err
    {
      if index >= treeCount {
        return Err;
      }
      LeafInRange(index);
      FetchCorrect(0, index, treeCount);
      item := Ok(Fetch(0, index, treeCount));
    }

    method Root(count: nat) returns (root: Result<Bytes>)
      requires Valid()
      ensures root == if count <= |leaves| then Ok(RootAt(k, leaves, count, treeHeight)) else Err
    {
      if count > treeCount {
        return Err;
      }
      FetchCorrect(treeHeight, 0, count);
      root := Ok(Fetch(treeHeight, 0, count));
    }

    method MerkleProof(index: nat, count: nat) returns (proof: Result<seq<Bytes>>)
      requires Valid()
      ensures proof == if index < count <= |leaves|
                       then Ok(ProofAt(k, leaves, index, count, treeHeight)) else Err
    {
      if count > treeCount {
        return Err;
      }
      if index >= count {
        return Err;
      }
      var x := index;
      var siblings := [];
      for h := 0 to treeHeight
        invariant x == Shr(index, h)
        invariant siblings + Siblings(k, leaves[..count], h, x, treeHeight)
               == ProofAt(k, leaves, index, count, treeHeight)
      {
        SiblingInRange(index, h, treeHeight);
        FetchCorrect(h, Sibling(x), count);
        ghost var rest := Siblings(k, leaves[..count], h + 1, x / 2, treeHeight);
        var s := Fetch(h, Sibling(x), count);
        assert siblings + ([s] + rest) == (siblings + [s]) + rest;
        siblings := siblings + [s];
        ShrStep(index, h);
        x := x / 2;
      }
      assert siblings + [] == siblings;
      proof := Ok(siblings);
    }

    lemma LeafInRange(x: nat)
      requires Valid() && x < treeCount
      ensures InRange(0, x, treeHeight)
    {
    }
  }

  /** The root, and the proof of a leaf, when the first `count` leaves had been inserted. */
  function RootAt(k: Hash, leaves: seq<Bytes>, count: nat, top: nat): Bytes
    requires count <= |leaves|
  {
    Node(k, leaves[..count], top, 0)
  }

  function ProofAt(k: Hash, leaves: seq<Bytes>, index: nat, count: nat, top: nat): seq<Bytes>
    requires count <= |leaves|
  {
    Siblings(k, leaves[..count], 0, index, top)
  }

  lemma SiblingInRange(index: nat, h: nat, top: nat)
    requires h < top && index < Shl(1, top)
    ensures InRange(h, Sibling(Shr(index, h)), top)
  {
    ShrStep(index, h);
    PathInRange(index, h + 1, top);
  }

  method BranchRoot(k: Hash, item: Bytes, index: nat, proof: seq<Bytes>, treeHeight: nat)
    returns (root: Result<Bytes>)
    ensures root == if |proof| == treeHeight then Ok(Fold(k, item, index, proof)) else Err
  {
    if |proof| != treeHeight {
      return Err;
    }
    var node := item;
    for h := 0 to treeHeight
      invariant Fold(k, node, Shr(index, h), proof[h..]) == Fold(k, item, index, proof)
    {
      if Shr(index, h) % 2 == 0 {
        node := GetParent(k, node, proof[h]);
      } else {
        node := GetParent(k, proof[h], node);
      }
      assert proof[h..][1..] == proof[h + 1..];
      ShrStep(index, h);
    }
    root := Ok(node);
  }

  predicate Verifies(k: Hash, root: Bytes, item: Bytes, index: nat, proof: seq<Bytes>, top: nat)
  {
    |proof| == top && Fold(k, item, index, proof) == root
  }

  method VerifyMerkleProof(
      k: Hash, root: Bytes, item: Bytes, index: nat, proof: seq<Bytes>, treeHeight: nat)
    returns (ok: bool)
    ensures ok <==> Verifies(k, root, item, index, proof, treeHeight)
  {
    var branchRoot := BranchRoot(k, item, index, proof, treeHeight);
    if branchRoot.Err? {
      return false;
    }
    ok := root == branchRoot.value;
  }

  // ----- what proofs are worth -----

  /** Every leaf can be proved against every root from its insertion on. */
  lemma MerkleProofVerifies(k: Hash, leaves: seq<Bytes>, index: nat, count: nat, top: nat)
    requires index < count <= |leaves| && count <= Shl(1, top)
    ensures Verifies(k, RootAt(k, leaves, count, top), leaves[index], index,
                     ProofAt(k, leaves, index, count, top), top)
  {
    ProofComplete(k, leaves[..count], 0, index, top);
    ShrRoot(index, top);
  }

  /** The proof of an even leaf starts with its right neighbour and goes on with a proof of
      their parent in a tree one level lower. */
  lemma EvenLeafProof(k: Hash, leaves: seq<Bytes>, i: nat, top: nat)
    requires 2 * i + 1 < |leaves| <= Shl(1, top) && 0 < top
    ensures var root, proof := RootAt(k, leaves, |leaves|, top), ProofAt(k, leaves, 2 * i, |leaves|, top);
      && |proof| == top && proof[0] == leaves[2 * i + 1]
      && Verifies(k, root, leaves[2 * i], 2 * i, proof, top)
      && Verifies(k, root, GetParent(k, leaves[2 * i], leaves[2 * i + 1]), i, proof[1..], top - 1)
  {
    assert leaves[..|leaves|] == leaves;
    assert Sibling(2 * i) == 2 * i + 1 && 2 * i / 2 == i;
    MerkleProofVerifies(k, leaves, 2 * i, |leaves|, top);
  }

  /** What verifies is the leaf that the tree has there (zero when none was inserted yet), with
      the tree's own proof, or `ProofBreak` computes a break of the hash. Bits of the index
      above the height of the tree are ignored. */
  lemma VerifiedIsLeaf(
      k: Hash, leaves: seq<Bytes>, count: nat, item: Bytes, index: nat, proof: seq<Bytes>, top: nat)
    requires All32(leaves) && All32(proof) && |item| == 32 && count <= |leaves|
    requires Verifies(k, RootAt(k, leaves, count, top), item, index, proof, top)
    ensures || (&& item == Leaf(leaves[..count], Low(index, top))
                && proof == ProofAt(k, leaves, Low(index, top), count, top))
            || Breaks(k, ProofBreak(k, leaves[..count], 0, item, Low(index, top), proof))
  {
    FoldLow(k, item, index, proof);
    LowBits(index, top);
    ShrRoot(Low(index, top), top);
    ProofSound(k, leaves[..count], 0, item, Low(index, top), proof);
  }

  /** Both directions for an index inside the tree. */
  lemma VerifiesIff(
      k: Hash, leaves: seq<Bytes>, count: nat, item: Bytes, index: nat, proof: seq<Bytes>, top: nat)
    requires All32(leaves) && All32(proof) && |item| == 32
    requires count <= |leaves| && index < Shl(1, top)
    requires !Breaks(k, ProofBreak(k, leaves[..count], 0, item, index, proof))
    ensures Verifies(k, RootAt(k, leaves, count, top), item, index, proof, top)
       <==> item == Leaf(leaves[..count], index) && proof == ProofAt(k, leaves, index, count, top)
  {
    LowBits(index, top);
    ShrRoot(index, top);
    if Verifies(k, RootAt(k, leaves, count, top), item, index, proof, top) {
      VerifiedIsLeaf(k, leaves, count, item, index, proof, top);
    } else {
      ProofComplete(k, leaves[..count], 0, index, top);
    }
  }

  /** A root that a non-zero leaf was inserted after is not the root before, so a proof
      against the one is no proof against the other, or `RootBreak` computes a break. */
  lemma RootsOfDifferentTimes(k: Hash, leaves: seq<Bytes>, m: nat, n: nat, index: nat, top: nat)
    requires All32(leaves) && m <= index < n <= |leaves| && n <= Shl(1, top)
    requires leaves[index] != ZERO32
    ensures || RootAt(k, leaves, m, top) != RootAt(k, leaves, n, top)
            || Breaks(k, RootBreak(k, leaves[..m], leaves[..n], top, 0))
  {
    if RootAt(k, leaves, m, top) == RootAt(k, leaves, n, top) {
      ShlZero(top);
      assert Leaf(leaves[..m], index) != Leaf(leaves[..n], index);
      RootBinding(k, leaves[..m], leaves[..n], top, 0);
    }
  }
}
