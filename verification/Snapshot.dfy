/** Snapshots: two leaves per state, and the proofs that the executor stores for each state. */
module Snapshot {
  import opened Wrappers
  import opened Bytes
  import opened Hashing
  import opened Encoder
  import opened MerkleSpec
  import opened HistoricalTrees

  /** Root and origin on the left, everything else on the right. */
  function LeftBytes(encoded: Bytes): Bytes
    requires |encoded| == STATE_SIZE
  {
    encoded[..STATE_OFFSET_NONCE]
  }

  function RightBytes(encoded: Bytes): Bytes
    requires |encoded| == STATE_SIZE
  {
    encoded[STATE_OFFSET_NONCE..STATE_SIZE]
  }

  function SubLeaves(k: Hash, s: State): Result<(Bytes32, Bytes32)>
  {
    var encoded := EncodeState(s);
    if encoded.Err? then Err
    else Ok((Keccak(k, LeftBytes(encoded.value)), Keccak(k, RightBytes(encoded.value))))
  }

  function StateHash(k: Hash, s: State): Result<Bytes32>
  {
    var leaves := SubLeaves(k, s);
    if leaves.Err? then Err else Ok(Keccak(k, leaves.value.0 + leaves.value.1))
  }

  lemma RightField(s: State)
    requires EncodeState(s).Ok?
    ensures RightBytes(EncodeState(s).value)
         == PutUint32(s.nonce) + PaddedBigBytes(s.blockNumber, 5) + PaddedBigBytes(s.timestamp, 5)
            + EncodeGasData(s.gasData)
  {
  }

  predicate SameRight(s: State, s': State)
  {
    s.nonce == s'.nonce && s.blockNumber == s'.blockNumber && s.timestamp == s'.timestamp && s.gasData == s'.gasData
  }

  /** The right bytes are nonce, block number, timestamp and gas data. */
  lemma RightIsTheRest(s: State, s': State)
    requires StateInRange(s) && StateInRange(s')
    ensures EncodeState(s).Ok? && EncodeState(s').Ok?
    ensures |RightBytes(EncodeState(s).value)| == 26
    ensures RightBytes(EncodeState(s).value) == RightBytes(EncodeState(s').value) <==> SameRight(s, s')
  {
    EncodeStateOk(s);
    EncodeStateOk(s');
    RightField(s);
    RightField(s');
    if RightBytes(EncodeState(s).value) == RightBytes(EncodeState(s').value) {
      RightDetermines(s, s');
    }
  }

  lemma RightDetermines(s: State, s': State)
    requires EncodeState(s).Ok? && EncodeState(s').Ok?
    requires RightBytes(EncodeState(s).value) == RightBytes(EncodeState(s').value)
    ensures SameRight(s, s')
  {
    EncodeStateOk(s);
    EncodeStateOk(s');
    RightAt(s);
    RightAt(s');
    GasDataRoundTrip(s.gasData);
    GasDataRoundTrip(s'.gasData);
  }

  /** Each field at its place in the right bytes. */
  lemma RightAt(s: State)
    requires StateInRange(s)
    ensures EncodeState(s).Ok?
    ensures var r := RightBytes(EncodeState(s).value);
      && |r| == 26
      && FromBigEndian(r[0..4]) == s.nonce
      && FromBigEndian(r[4..9]) == s.blockNumber
      && FromBigEndian(r[9..14]) == s.timestamp
      && r[14..26] == EncodeGasData(s.gasData)
  {
    EncodeStateOk(s);
    RightField(s);
    var r := RightBytes(EncodeState(s).value);
    assert r[0..4] == PutUint32(s.nonce);
    assert r[4..9] == PaddedBigBytes(s.blockNumber, 5);
    assert r[9..14] == PaddedBigBytes(s.timestamp, 5);
    assert r[14..26] == EncodeGasData(s.gasData);
    Uint32RoundTrip(s.nonce);
    PaddedRoundTrip(s.blockNumber, 5);
    PaddedRoundTrip(s.timestamp, 5);
  }

  /** The two sub-leaves and the hash of a state, in terms of its fields. */
  lemma StateHashIs(k: Hash, s: State)
    requires StateInRange(s)
    ensures var left := Keccak(k, s.root + PutUint32(s.origin));
            var right := Keccak(k, PutUint32(s.nonce) + PaddedBigBytes(s.blockNumber, 5)
                                   + PaddedBigBytes(s.timestamp, 5) + EncodeGasData(s.gasData));
      SubLeaves(k, s) == Ok((left, right)) && StateHash(k, s) == Ok(Keccak(k, left + right))
  {
    EncodeStateOk(s);
    LeftField(s);
    RightField(s);
  }

  predicate AllInRange(states: seq<State>)
  {
    forall i :: 0 <= i < |states| ==> StateInRange(states[i])
  }

  /** The leaves of the snapshot's tree. */
  function SnapshotLeaves(k: Hash, states: seq<State>): (leaves: seq<Bytes>)
    requires AllInRange(states)
    ensures |leaves| == 2 * |states|
  {
    if states == [] then []
    else SnapshotLeaves(k, states[..|states| - 1]) + PairOf(k, states[|states| - 1])
  }

  function PairOf(k: Hash, s: State): (pair: seq<Bytes>)
    requires StateInRange(s)
    ensures |pair| == 2 && |pair[0]| == |pair[1]| == 32
  {
    EncodeStateOk(s);
    [SubLeaves(k, s).value.0, SubLeaves(k, s).value.1]
  }

  lemma {:induction false} SnapshotLeafAt(k: Hash, states: seq<State>, i: nat)
    requires AllInRange(states) && i < |states|
    ensures SnapshotLeaves(k, states)[2 * i] == PairOf(k, states[i])[0]
    ensures SnapshotLeaves(k, states)[2 * i + 1] == PairOf(k, states[i])[1]
  {
    if i < |states| - 1 {
      SnapshotLeafAt(k, states[..|states| - 1], i);
    }
  }

  function SnapshotRoot(k: Hash, states: seq<State>, top: nat): Bytes
    requires AllInRange(states)
  {
    RootAt(k, SnapshotLeaves(k, states), 2 * |states|, top)
  }

  function SnapshotProof(k: Hash, states: seq<State>, i: nat, top: nat): seq<Bytes>
    requires AllInRange(states)
  {
    ProofAt(k, SnapshotLeaves(k, states), 2 * i, 2 * |states|, top)
  }

  lemma OneMoreState(k: Hash, states: seq<State>, i: nat)
    requires i < |states| && AllInRange(states[..i])
    ensures AllInRange(states[..i + 1]) <==> StateInRange(states[i])
    ensures StateInRange(states[i]) ==>
      SnapshotLeaves(k, states[..i + 1]) == SnapshotLeaves(k, states[..i]) + PairOf(k, states[i])
  {
    assert states[..i + 1][..i] == states[..i];
    assert states[..i + 1][i] == states[i];
  }

  /** The sub-leaves, or the error of the encoding. */
  lemma SubLeavesArePair(k: Hash, s: State)
    ensures SubLeaves(k, s).Ok? <==> StateInRange(s)
    ensures StateInRange(s) ==>
      SubLeaves(k, s).value.0 == PairOf(k, s)[0] && SubLeaves(k, s).value.1 == PairOf(k, s)[1]
  {
    EncodeStateOk(s);
  }

  /** The root, and a list twice as long as the states whose first half holds their proofs. The
      source's height is SNAPSHOT_TREE_HEIGHT. */
  method SnapshotRootAndProofs(k: Hash, states: seq<State>, treeHeight: nat)
    returns (r: Result<(Bytes, seq<seq<Bytes>>)>)
    requires treeHeight < 64 && Fits(states, treeHeight)
    ensures r.Ok? <==> AllInRange(states)
    ensures r.Ok? ==>
      && r.value.0 == SnapshotRoot(k, states, treeHeight)
      && |r.value.1| == 2 * |states|
      && (forall i :: 0 <= i < |states| ==> r.value.1[i] == SnapshotProof(k, states, i, treeHeight))
      && (forall i :: |states| <= i < 2 * |states| ==> r.value.1[i] == [])
  {
    var tree := new HistoricalTree(k, treeHeight);
    for i := 0 to |states|
      invariant fresh(tree) && tree.Valid() && tree.k == k && tree.treeHeight == treeHeight
      invariant AllInRange(states[..i]) && tree.leaves == SnapshotLeaves(k, states[..i])
    {
      OneMoreState(k, states, i);
      SubLeavesArePair(k, states[i]);
      var leaves := SubLeaves(k, states[i]);
      if leaves.Err? {
        return Err;
      }
      ghost var pair := PairOf(k, states[i]);
      assert leaves.value.0 == pair[0] && leaves.value.1 == pair[1];
      InsertPair(tree, leaves.value.0, leaves.value.1);
      assert pair == [pair[0], pair[1]];
    }
    assert states[..|states|] == states;
    var root := tree.Root(2 * |states|);
    var proofs := StateProofs(tree, |states|);
    r := Ok((root.value, proofs));
  }

  method InsertPair(tree: HistoricalTree, left: Bytes, right: Bytes)
    requires tree.Valid() && |tree.leaves| + 2 <= Shl(1, tree.treeHeight)
    requires |tree.leaves| + 2 < 0x1_0000_0000
    modifies tree
    ensures tree.Valid() && tree.leaves == old(tree.leaves) + [left, right]
  {
    tree.Insert(left);
    tree.Insert(right);
  }

  /** The loop over the even indices. */
  method StateProofs(tree: HistoricalTree, n: nat) returns (proofs: seq<seq<Bytes>>)
    requires tree.Valid() && |tree.leaves| == 2 * n
    ensures |proofs| == 2 * n
    ensures forall i :: 0 <= i < n ==>
      proofs[i] == ProofAt(tree.k, tree.leaves, 2 * i, 2 * n, tree.treeHeight)
    ensures forall i :: n <= i < 2 * n ==> proofs[i] == []
  {
    proofs := seq(2 * n, _ => []);
    var i := 0;
    while i < 2 * n
      invariant i % 2 == 0 && i <= 2 * n == |proofs|
      invariant forall j :: 0 <= j < i / 2 ==>
        proofs[j] == ProofAt(tree.k, tree.leaves, 2 * j, 2 * n, tree.treeHeight)
      invariant forall j :: i / 2 <= j < |proofs| ==> proofs[j] == []
    {
      var proof := tree.MerkleProof(i, 2 * n);
      assert 2 * (i / 2) == i;
      proofs := proofs[i / 2 := proof.value];
      i := i + 2;
    }
  }

  // ----- what the proofs prove -----

  lemma {:induction false} SnapshotLeaves32(k: Hash, states: seq<State>)
    requires AllInRange(states)
    ensures All32(SnapshotLeaves(k, states))
  {
    if states == [] {
    } else {
      SnapshotLeaves32(k, states[..|states| - 1]);
    }
  }

  lemma LeavesFit(states: seq<State>)
    ensures Fits(states, SNAPSHOT_TREE_HEIGHT) <==> |states| <= 32
  {
    assert Shl(1, 6) == 64;
  }

  /** Both sub-leaves of a state are preimages of zero. */
  predicate ZeroSubLeaves(k: Hash, s: State)
    requires StateInRange(s)
  {
    EncodeStateOk(s);
    var encoded := EncodeState(s).value;
    Breaks(k, ZeroPreimage(LeftBytes(encoded))) && Breaks(k, ZeroPreimage(RightBytes(encoded)))
  }

  /** A snapshot that a tree of the height has room for: 1 to 32 states in the source's. */
  predicate Fits(states: seq<State>, top: nat)
  {
    2 * |states| <= Shl(1, top) && 2 * |states| < 0x1_0000_0000
  }

  /** Each state's proof verifies its left sub-leaf at the even index against the root, and
      starts with its right sub-leaf. The rest of it proves the state's hash in the tree of half
      as many leaves, or two preimages of zero are at hand; then it proves zero there. */
  lemma ProofsVerify(k: Hash, states: seq<State>, i: nat, top: nat)
    requires AllInRange(states) && i < |states| && Fits(states, top)
    ensures top > 0 && SubLeaves(k, states[i]).Ok? && StateHash(k, states[i]).Ok?
    ensures var (left, right) := SubLeaves(k, states[i]).value;
            var root, proof := SnapshotRoot(k, states, top), SnapshotProof(k, states, i, top);
      && |proof| == top && proof[0] == right
      && Verifies(k, root, left, 2 * i, proof, top)
      && if ZeroSubLeaves(k, states[i]) then Verifies(k, root, ZERO32, i, proof[1..], top - 1)
         else Verifies(k, root, StateHash(k, states[i]).value, i, proof[1..], top - 1)
  {
    SnapshotLeafAt(k, states, i);
    SubLeavesArePair(k, states[i]);
    var (left, right) := SubLeaves(k, states[i]).value;
    EvenLeafProof(k, SnapshotLeaves(k, states), i, top);
    if left != ZERO32 || right != ZERO32 {
      NotBothZero(k, left, right);
    }
  }

  lemma NotBothZero(k: Hash, a: Bytes32, b: Bytes32)
    requires a != ZERO32 || b != ZERO32
    ensures GetParent(k, a, b) == Keccak(k, a + b)
  {
  }

  /** The strings behind two states that one proof accepts at one place. */
  function StateBreak(k: Hash, states: seq<State>, s: State, i: nat, proof: seq<Bytes>): Break
    requires AllInRange(states) && i < |states| && StateInRange(s)
  {
    EncodeStateOk(s);
    EncodeStateOk(states[i]);
    var mine, theirs := EncodeState(s).value, EncodeState(states[i]).value;
    if Breaks(k, Collision(LeftBytes(mine), LeftBytes(theirs))) then
      Collision(LeftBytes(mine), LeftBytes(theirs))
    else
      ProofBreak(k, SnapshotLeaves(k, states)[..2 * |states|], 0, Keccak(k, LeftBytes(mine)), 2 * i, proof)
  }

  predicate SameLeft(s: State, s': State)
  {
    s.root == s'.root && s.origin == s'.origin
  }

  lemma LeftIsRootAndOrigin(s: State, s': State)
    requires StateInRange(s) && StateInRange(s')
    ensures EncodeState(s).Ok? && EncodeState(s').Ok?
    ensures LeftBytes(EncodeState(s).value) == LeftBytes(EncodeState(s').value) <==> SameLeft(s, s')
  {
    EncodeStateOk(s);
    EncodeStateOk(s');
    LeftField(s);
    LeftField(s');
    Uint32RoundTrip(s.origin);
    Uint32RoundTrip(s'.origin);
    if LeftBytes(EncodeState(s).value) == LeftBytes(EncodeState(s').value) {
      SplitConcat(s.root, PutUint32(s.origin), s'.root, PutUint32(s'.origin));
    }
  }

  lemma LeftField(s: State)
    requires EncodeState(s).Ok?
    ensures LeftBytes(EncodeState(s).value) == s.root + PutUint32(s.origin)
  {
  }

  /** What the executor's check of a state against a snapshot establishes is the state's root
      and origin, no more and no less; or a break is computed. */
  lemma StateProofBindsRootAndOrigin(
      k: Hash, states: seq<State>, s: State, i: nat, proof: seq<Bytes>, top: nat)
    requires AllInRange(states) && i < |states| && Fits(states, top) && StateInRange(s)
    requires All32(proof) && !Breaks(k, StateBreak(k, states, s, i, proof))
    ensures SubLeaves(k, s).Ok?
    ensures Verifies(k, SnapshotRoot(k, states, top), SubLeaves(k, s).value.0, 2 * i, proof, top)
       <==> SameLeft(s, states[i]) && proof == SnapshotProof(k, states, i, top)
  {
    LeftIsRootAndOrigin(s, states[i]);
    SnapshotLeaves32(k, states);
    SnapshotLeafAt(k, states, i);
    SubLeavesArePair(k, s);
    SubLeavesArePair(k, states[i]);
    var leaves, left := SnapshotLeaves(k, states), SubLeaves(k, s).value.0;
    assert leaves[..2 * |states|] == leaves;
    VerifiesIff(k, leaves, 2 * |states|, left, 2 * i, proof, top);
  }
}
