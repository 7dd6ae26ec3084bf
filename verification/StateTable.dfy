/** The executor's table of states: filled from accepted snapshots, looked up by masks. */
module StateTable {
  import opened Wrappers
  import opened Bytes
  import opened Hashing
  import opened Encoder
  import opened MerkleSpec
  import opened HistoricalTrees
  import opened Snapshot

  /** What is stored beside a state. */
  datatype Metadata = Metadata(snapshotRoot: Bytes, proof: seq<Bytes>, stateIndex: uint32)

  datatype StateRow = StateRow(state: State, metadata: Metadata)

  /** The primary key. */
  predicate SameKey(a: StateRow, b: StateRow)
  {
    && a.metadata.snapshotRoot == b.metadata.snapshotRoot
    && a.state.root == b.state.root && a.state.origin == b.state.origin && a.state.nonce == b.state.nonce
  }

  /** A row whose key exists already changes nothing. */
  function InsertStateRow(rows: seq<StateRow>, row: StateRow): seq<StateRow>
  {
    if exists r :: r in rows && SameKey(r, row) then rows else rows + [row]
  }

  function InsertStateRows(rows: seq<StateRow>, more: seq<StateRow>): seq<StateRow>
  {
    if more == [] then rows
    else InsertStateRow(InsertStateRows(rows, more[..|more| - 1]), more[|more| - 1])
  }

  lemma {:induction false} InsertedRows(rows: seq<StateRow>, more: seq<StateRow>)
    ensures forall r :: r in InsertStateRows(rows, more) ==> r in rows || r in more
    ensures rows <= InsertStateRows(rows, more)
  {
    if more == [] {
    } else {
      InsertedRows(rows, more[..|more| - 1]);
    }
  }

  predicate HasKey(rows: seq<StateRow>, row: StateRow)
  {
    exists r :: r in rows && SameKey(r, row)
  }

  /** Storing stores: afterwards there is a row with the key of each new one, that row itself if
      the key was not there before and is not repeated. */
  lemma {:induction false} InsertedKeys(rows: seq<StateRow>, more: seq<StateRow>, i: nat)
    requires i < |more|
    ensures HasKey(InsertStateRows(rows, more), more[i])
    ensures !HasKey(rows, more[i]) && (forall j :: 0 <= j < i ==> !SameKey(more[j], more[i])) ==>
      more[i] in InsertStateRows(rows, more)
  {
    var n := |more| - 1;
    var before := InsertStateRows(rows, more[..n]);
    if i < n {
      InsertedKeys(rows, more[..n], i);
      var r :| r in before && SameKey(r, more[i]);
      assert before <= InsertStateRows(rows, more) && r in InsertStateRows(rows, more);
      if more[i] in before {
        assert more[i] in InsertStateRows(rows, more);
      }
    } else {
      InsertedRows(rows, more[..n]);
      if !HasKey(before, more[n]) {
        assert more[n] in InsertStateRows(rows, more) && SameKey(more[n], more[n]);
      }
      forall r | r in before && SameKey(r, more[n])
        ensures r in rows || exists j :: 0 <= j < n && SameKey(more[j], more[n])
      {
        if r !in rows {
          var j :| 0 <= j < n && more[j] == r;
        }
      }
    }
  }

  /** The key is unique. */
  predicate UniqueKeys(rows: seq<StateRow>)
  {
    forall i, j :: 0 <= i < j < |rows| ==> !SameKey(rows[i], rows[j])
  }

  lemma {:induction false} KeysStayUnique(rows: seq<StateRow>, more: seq<StateRow>)
    requires UniqueKeys(rows)
    ensures UniqueKeys(InsertStateRows(rows, more))
  {
    if more == [] {
    } else {
      KeysStayUnique(rows, more[..|more| - 1]);
    }
  }

  /** What a lookup asks for. The mapper leaves a field of value zero out of the condition. */
  datatype Mask = Mask(root: Bytes32, origin: uint32, nonce: Option<uint32>)

  predicate Matches(row: StateRow, mask: Mask)
  {
    && row.state.root == mask.root
    && (mask.origin == 0 || row.state.origin == mask.origin)
    && (mask.nonce == None || mask.nonce.value == 0 || row.state.nonce == mask.nonce.value)
  }

  /** The lookup of the check, and the one for the submission. */
  function CheckMask(s: State): Mask
  {
    Mask(s.root, s.origin, None)
  }

  function SubmitMask(s: State): Mask
  {
    Mask(s.root, s.origin, Some(s.nonce))
  }

  predicate HasMatch(rows: seq<StateRow>, mask: Mask)
  {
    exists r :: r in rows && Matches(r, mask)
  }

  predicate Found(rows: seq<StateRow>, mask: Mask, metadata: Metadata)
  {
    exists r :: r in rows && Matches(r, mask) && r.metadata == metadata
  }

  function RowsOf(states: seq<State>, snapshotRoot: Bytes, proofs: seq<seq<Bytes>>): (rows: seq<StateRow>)
    requires |states| <= |proofs| && |states| < 0x1_0000_0000
    ensures |rows| == |states|
    ensures forall i :: 0 <= i < |rows| ==> rows[i] == StateRow(states[i], Metadata(snapshotRoot, proofs[i], i))
  {
    seq(|states|, i requires 0 <= i < |states| => StateRow(states[i], Metadata(snapshotRoot, proofs[i], i)))
  }

  class StateStore {
    var rows: seq<StateRow>

    constructor ()
      ensures rows == []
    {
      rows := [];
    }

    method StoreStates(states: seq<State>, snapshotRoot: Bytes, proofs: seq<seq<Bytes>>, outcome: Outcome)
      returns (ok: bool)
      requires |states| <= |proofs| && |states| < 0x1_0000_0000
      modifies this
      ensures ok <==> outcome.Committed?
      ensures rows == if outcome.Refused? then old(rows)
                      else InsertStateRows(old(rows), RowsOf(states, snapshotRoot, proofs))
    {
      var dbStates: seq<StateRow> := [];
      for i := 0 to |states|
        invariant dbStates == RowsOf(states, snapshotRoot, proofs)[..i]
      {
        dbStates := dbStates + [StateRow(states[i], Metadata(snapshotRoot, proofs[i], i))];
      }
      assert dbStates == RowsOf(states, snapshotRoot, proofs);
      if !outcome.Refused? {
        rows := InsertStateRows(rows, dbStates);
      }
      ok := outcome.Committed?;
    }

    /** Any one of the rows that match, in an order that the query leaves open. */
    method GetStateMetadata(mask: Mask) returns (metadata: Option<Metadata>)
      ensures metadata.Some? <==> HasMatch(rows, mask)
      ensures metadata.Some? ==> Found(rows, mask, metadata.value)
    {
      if !HasMatch(rows, mask) {
        return None;
      }
      var r :| r in rows && Matches(r, mask);
      metadata := Some(r.metadata);
    }
  }

  // ----- what rows are worth -----

  /** The state's left sub-leaf passes against the snapshot of the row. */
  predicate StateAccepted(k: Hash, state: State, metadata: Metadata, snapshotHeight: nat)
  {
    && SubLeaves(k, state).Ok?
    && Verifies(k, metadata.snapshotRoot, SubLeaves(k, state).value.0, U32(metadata.stateIndex * 2),
                metadata.proof, snapshotHeight)
  }

  /** The row that is stored for state `i` of an accepted snapshot. */
  predicate RowFor(k: Hash, row: StateRow, states: seq<State>, i: nat, top: nat)
  {
    && AllInRange(states) && i < |states| && Fits(states, top)
    && row == StateRow(states[i], Metadata(SnapshotRoot(k, states, top), SnapshotProof(k, states, i, top), i))
  }

  ghost predicate Genuine(k: Hash, row: StateRow, top: nat)
  {
    exists states: seq<State>, i: nat :: RowFor(k, row, states, i, top)
  }

  ghost predicate AllGenuine(k: Hash, rows: seq<StateRow>, top: nat)
  {
    forall r :: r in rows ==> Genuine(k, r, top)
  }

  /** The table holds nothing but stored states, and the state's origin is a condition. */
  ghost predicate Sound(k: Hash, rows: seq<StateRow>, s: State, top: nat)
  {
    AllGenuine(k, rows, top) && s.origin != 0
  }

  /** For an index that an actual snapshot has, doubling does not wrap around. */
  lemma AcceptedMeansVerified(k: Hash, s: State, metadata: Metadata, top: nat)
    requires metadata.stateIndex < 0x8000_0000
    ensures StateAccepted(k, s, metadata, top) <==>
      && SubLeaves(k, s).Ok?
      && Verifies(k, metadata.snapshotRoot, SubLeaves(k, s).value.0, 2 * metadata.stateIndex, metadata.proof, top)
  {
    assert U32(metadata.stateIndex * 2) == 2 * metadata.stateIndex;
  }

  lemma SameLeftLeaf(k: Hash, s: State, s': State)
    requires StateInRange(s) && StateInRange(s') && SameLeft(s, s')
    ensures SubLeaves(k, s).Ok? && SubLeaves(k, s').Ok? && SubLeaves(k, s).value.0 == SubLeaves(k, s').value.0
  {
    LeftIsRootAndOrigin(s, s');
  }

  /** A row accepts every state that has the root and origin of its own. */
  lemma RowAccepts(k: Hash, row: StateRow, states: seq<State>, i: nat, s: State, top: nat)
    requires RowFor(k, row, states, i, top) && StateInRange(s) && SameLeft(s, states[i])
    ensures StateAccepted(k, s, row.metadata, top)
  {
    ProofsVerify(k, states, i, top);
    SameLeftLeaf(k, s, states[i]);
    AcceptedMeansVerified(k, s, row.metadata, top);
  }

  /** And no other, or a break is computed. */
  lemma RowAcceptsOnly(k: Hash, row: StateRow, states: seq<State>, i: nat, s: State, top: nat)
    requires RowFor(k, row, states, i, top) && StateInRange(s)
    requires !Breaks(k, StateBreak(k, states, s, i, row.metadata.proof))
    ensures StateAccepted(k, s, row.metadata, top) <==> SameLeft(s, states[i])
  {
    SnapshotLeaves32(k, states);
    Siblings32(k, SnapshotLeaves(k, states)[..2 * |states|], 0, 2 * i, top);
    StateProofBindsRootAndOrigin(k, states, s, i, row.metadata.proof, top);
    AcceptedMeansVerified(k, s, row.metadata, top);
  }

  /** In a table of genuine rows, whatever a lookup by root and origin returns accepts the state
      that it was made for, with or without the nonce, unless the origin is zero. */
  lemma LookupAccepts(k: Hash, rows: seq<StateRow>, mask: Mask, metadata: Metadata, s: State, top: nat)
    requires AllGenuine(k, rows, top) && Found(rows, mask, metadata) && StateInRange(s)
    requires mask.root == s.root && mask.origin == s.origin && s.origin != 0
    ensures StateAccepted(k, s, metadata, top) && 2 * metadata.stateIndex < Shl(1, top)
  {
    var row :| row in rows && Matches(row, mask) && row.metadata == metadata;
    var states: seq<State>, i: nat :| RowFor(k, row, states, i, top);
    RowAccepts(k, row, states, i, s, top);
  }

  /** A row with the state's key is found for its submission. */
  lemma KeyIsFound(rows: seq<StateRow>, row: StateRow)
    requires HasKey(rows, row)
    ensures HasMatch(rows, SubmitMask(row.state)) && HasMatch(rows, CheckMask(row.state))
  {
    var r :| r in rows && SameKey(r, row);
    assert Matches(r, SubmitMask(row.state));
    SubmitMatchesCheck(rows, row.state);
  }

  /** What is found for a state of non-zero origin is a row with its root and origin, and for the
      submission of one of non-zero nonce, with its nonce too. */
  lemma FoundIs(rows: seq<StateRow>, s: State, m: Metadata)
    requires s.origin != 0
    ensures Found(rows, CheckMask(s), m) <==>
      exists r :: r in rows && r.state.root == s.root && r.state.origin == s.origin && r.metadata == m
    ensures s.nonce != 0 ==> (Found(rows, SubmitMask(s), m) <==>
      exists r :: r in rows && r.state.root == s.root && r.state.origin == s.origin && r.state.nonce == s.nonce
               && r.metadata == m)
  {
    forall r: StateRow
      ensures Matches(r, CheckMask(s)) <==> r.state.root == s.root && r.state.origin == s.origin
      ensures s.nonce != 0 ==> (Matches(r, SubmitMask(s)) <==>
        r.state.root == s.root && r.state.origin == s.origin && r.state.nonce == s.nonce)
    {
    }
  }

  lemma SubmitMatchesCheck(rows: seq<StateRow>, s: State)
    requires HasMatch(rows, SubmitMask(s))
    ensures HasMatch(rows, CheckMask(s))
  {
    var r :| r in rows && Matches(r, SubmitMask(s));
    assert Matches(r, CheckMask(s));
  }

  /** The check of the state has passed on some row. */
  ghost predicate Checked(k: Hash, rows: seq<StateRow>, s: State, top: nat)
  {
    exists m :: Found(rows, CheckMask(s), m) && StateAccepted(k, s, m, top)
  }

  /** Proof and index come from a row that was found for the submission. */
  ghost predicate SubmittedFrom(rows: seq<StateRow>, s: State, proof: seq<Bytes>, stateIndex: uint32)
  {
    exists m :: Found(rows, SubmitMask(s), m) && proof == m.proof && stateIndex == m.stateIndex % 0x100
  }

  /** A row was found whose snapshot accepts the state with this proof and index. */
  ghost predicate ProvedBySubmission(
      k: Hash, rows: seq<StateRow>, s: State, proof: seq<Bytes>, stateIndex: uint32, top: nat)
  {
    exists m :: Found(rows, SubmitMask(s), m) && StateAccepted(k, s, Metadata(m.snapshotRoot, proof, stateIndex), top)
  }

  /** What is submitted from a table of genuine rows verifies, although it is not checked. The
      index goes out as one byte, which is enough for snapshots of up to 256 states. */
  lemma SubmissionVerifies(k: Hash, rows: seq<StateRow>, s: State, proof: seq<Bytes>, stateIndex: uint32, top: nat)
    requires Sound(k, rows, s, top) && StateInRange(s) && SubmittedFrom(rows, s, proof, stateIndex)
    requires Shl(1, top) <= 0x200
    ensures ProvedBySubmission(k, rows, s, proof, stateIndex, top)
  {
    var m :| Found(rows, SubmitMask(s), m) && proof == m.proof && stateIndex == m.stateIndex % 0x100;
    LookupAccepts(k, rows, SubmitMask(s), m, s, top);
    FitsByte(m.stateIndex);
    assert Metadata(m.snapshotRoot, proof, stateIndex) == m;
  }

  lemma FitsByte(i: nat)
    requires 2 * i < 0x200
    ensures i % 0x100 == i
  {
  }

  /** Zero is no condition: the lookup for a state of origin zero may return the row of another
      origin with the same root, which does not accept it, or a break is computed. */
  lemma ZeroOriginMismatch(k: Hash, s: State, t: State, nonce: Option<uint32>, top: nat)
    requires StateInRange(s) && StateInRange(t) && s.root == t.root && s.origin == 0 != t.origin
    requires Fits([t], top) && (nonce == None || nonce == Some(t.nonce))
    ensures var row := StateRow(t, Metadata(SnapshotRoot(k, [t], top), SnapshotProof(k, [t], 0, top), 0));
      && RowFor(k, row, [t], 0, top) && Matches(row, Mask(s.root, s.origin, nonce))
      && (!StateAccepted(k, s, row.metadata, top) || Breaks(k, StateBreak(k, [t], s, 0, row.metadata.proof)))
  {
    var row := StateRow(t, Metadata(SnapshotRoot(k, [t], top), SnapshotProof(k, [t], 0, top), 0));
    if !Breaks(k, StateBreak(k, [t], s, 0, row.metadata.proof)) {
      RowAcceptsOnly(k, row, [t], 0, s, top);
    }
  }

  function LeftOf(s: State): Bytes
    requires StateInRange(s)
  {
    EncodeStateOk(s);
    LeftBytes(EncodeState(s).value)
  }

  /** A state may be in several snapshots, and the lookup does not say which one it means: here
      both rows match, and their snapshots have different roots, or a break is at hand. */
  lemma SnapshotNotDetermined(k: Hash, s: State, t: State, top: nat)
    requires StateInRange(s) && StateInRange(t) && Fits([s, t], top)
    ensures var row := StateRow(s, Metadata(SnapshotRoot(k, [s], top), SnapshotProof(k, [s], 0, top), 0));
            var row' := StateRow(s, Metadata(SnapshotRoot(k, [s, t], top), SnapshotProof(k, [s, t], 0, top), 0));
            var mask := Mask(s.root, s.origin, Some(s.nonce));
            var leaves := SnapshotLeaves(k, [s, t]);
      && RowFor(k, row, [s], 0, top) && RowFor(k, row', [s, t], 0, top)
      && Matches(row, mask) && Matches(row', mask)
      && (|| row.metadata.snapshotRoot != row'.metadata.snapshotRoot
          || Breaks(k, RootBreak(k, leaves[..2], leaves[..4], top, 0))
          || Breaks(k, ZeroPreimage(LeftOf(t))))
  {
    var leaves := SnapshotLeaves(k, [s, t]);
    assert [s, t][..1] == [s];
    assert leaves[..2] == SnapshotLeaves(k, [s]);
    assert SnapshotLeaves(k, [s])[..2] == leaves[..2];
    SnapshotLeafAt(k, [s, t], 1);
    SubLeavesArePair(k, t);
    assert leaves[2] == Keccak(k, LeftOf(t));
    if leaves[2] != ZERO32 {
      SnapshotLeaves32(k, [s, t]);
      RootsOfDifferentTimes(k, leaves, 2, 4, 2, top);
    }
  }
}
