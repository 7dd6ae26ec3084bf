/** What the executor stores about the states of an accepted snapshot. */
module ExecutorSnapshot {
  import opened Wrappers
  import opened Bytes
  import opened Hashing
  import opened Encoder
  import opened HistoricalTrees
  import opened Snapshot
  import opened StateTable

  /** The origin's answer about a state. */
  datatype Answer = Valid | Invalid | CallFailed

  predicate Accepted(states: seq<State>, answers: seq<Answer>, n: nat)
    requires n <= |states| == |answers|
  {
    forall i :: 0 <= i < n ==> StateInRange(states[i]) && answers[i].Valid?
  }

  /** The rows of an accepted snapshot. */
  function SnapshotRows(k: Hash, states: seq<State>, top: nat): (rows: seq<StateRow>)
    requires AllInRange(states) && |states| < 0x1_0000_0000
    ensures |rows| == |states|
    ensures forall i :: 0 <= i < |rows| ==>
      rows[i] == StateRow(states[i], Metadata(SnapshotRoot(k, states, top), SnapshotProof(k, states, i, top), i))
  {
    seq(|states|, i requires 0 <= i < |states| =>
      StateRow(states[i], Metadata(SnapshotRoot(k, states, top), SnapshotProof(k, states, i, top), i)))
  }

  /** How far the loop over the states comes. */
  datatype Validity = AllValid | SomeInvalid | SomeError

  method CheckStates(states: seq<State>, answers: seq<Answer>) returns (v: Validity)
    requires |answers| == |states|
    ensures v.AllValid? <==> Accepted(states, answers, |states|)
    ensures v.SomeInvalid? ==> exists i ::
      0 <= i < |states| && answers[i].Invalid? && StateInRange(states[i]) && Accepted(states, answers, i)
    ensures v.SomeError? ==> exists i ::
      0 <= i < |states| && (answers[i].CallFailed? || !StateInRange(states[i])) && Accepted(states, answers, i)
  {
    for i := 0 to |states|
      invariant Accepted(states, answers, i)
    {
      EncodeStateOk(states[i]);
      var payload := EncodeState(states[i]);
      if payload.Err? {
        return SomeError;
      }
      if answers[i].CallFailed? {
        return SomeError;
      }
      if answers[i].Invalid? {
        return SomeInvalid;
      }
    }
    v := AllValid;
  }

  /** The snapshot is stored when every state encodes and is valid on its origin; the first state
      that is not decides between an error and silence. State `i` is stored with the snapshot's
      root, its own proof and index `i`. Storing may fail, before or after the rows were written. */
  method ProcessSnapshot(
      k: Hash, states: seq<State>, answers: seq<Answer>, store: StateStore, outcome: Outcome, treeHeight: nat)
    returns (ok: bool)
    requires |answers| == |states|
    requires treeHeight < 64 && Fits(states, treeHeight)
    modifies store
    ensures Accepted(states, answers, |states|) ==>
      && ok == outcome.Committed?
      && store.rows == if outcome.Refused? then old(store.rows)
                       else InsertStateRows(old(store.rows), SnapshotRows(k, states, treeHeight))
    ensures !Accepted(states, answers, |states|) ==> store.rows == old(store.rows)
    ensures ok && !Accepted(states, answers, |states|) ==> exists i ::
      0 <= i < |states| && answers[i].Invalid? && StateInRange(states[i]) && Accepted(states, answers, i)
    ensures !ok && !Accepted(states, answers, |states|) ==> exists i ::
      0 <= i < |states| && (answers[i].CallFailed? || !StateInRange(states[i])) && Accepted(states, answers, i)
    ensures Accepted(states, answers, |states|) && !outcome.Refused? ==>
      forall i :: 0 <= i < |states| ==> HasMatch(store.rows, SubmitMask(states[i]))
    ensures old(UniqueKeys(store.rows)) ==> UniqueKeys(store.rows)
    ensures old(AllGenuine(k, store.rows, treeHeight)) ==> AllGenuine(k, store.rows, treeHeight)
  {
    var v := CheckStates(states, answers);
    if v.SomeError? {
      return false;
    }
    if v.SomeInvalid? {
      return true;
    }
    var rootAndProofs := SnapshotRootAndProofs(k, states, treeHeight);
    var (root, proofs) := rootAndProofs.value;
    assert RowsOf(states, root, proofs) == SnapshotRows(k, states, treeHeight);
    RowsStayGenuine(k, store.rows, states, treeHeight);
    StoredIsFound(k, store.rows, states, treeHeight);
    KeepsKeysUnique(store.rows, SnapshotRows(k, states, treeHeight));
    ok := store.StoreStates(states, root, proofs, outcome);
  }

  /** Each state of an accepted snapshot is found when it is to be submitted. */
  lemma StoredIsFound(k: Hash, rows: seq<StateRow>, states: seq<State>, top: nat)
    requires AllInRange(states) && |states| < 0x1_0000_0000
    ensures forall i :: 0 <= i < |states| ==>
      HasMatch(InsertStateRows(rows, SnapshotRows(k, states, top)), SubmitMask(states[i]))
  {
    var more := SnapshotRows(k, states, top);
    forall i | 0 <= i < |states|
      ensures HasMatch(InsertStateRows(rows, more), SubmitMask(states[i]))
    {
      InsertedKeys(rows, more, i);
      KeyIsFound(InsertStateRows(rows, more), more[i]);
    }
  }

  predicate DifferentStates(states: seq<State>)
  {
    forall i, j :: 0 <= i < j < |states| ==>
      states[i].root != states[j].root || states[i].origin != states[j].origin || states[i].nonce != states[j].nonce
  }

  /** The first snapshot of its root is stored row by row: every state with the snapshot's root, its
      own proof and index, if no two of them have one root, origin and nonce. */
  lemma NewSnapshotIsStored(k: Hash, rows: seq<StateRow>, states: seq<State>, top: nat)
    requires AllInRange(states) && |states| < 0x1_0000_0000 && DifferentStates(states)
    requires forall r :: r in rows ==> r.metadata.snapshotRoot != SnapshotRoot(k, states, top)
    ensures forall i :: 0 <= i < |states| ==>
      SnapshotRows(k, states, top)[i] in InsertStateRows(rows, SnapshotRows(k, states, top))
  {
    var more := SnapshotRows(k, states, top);
    forall i | 0 <= i < |states|
      ensures more[i] in InsertStateRows(rows, more)
    {
      assert !HasKey(rows, more[i]);
      assert forall j :: 0 <= j < i ==> !SameKey(more[j], more[i]);
      InsertedKeys(rows, more, i);
    }
  }

  lemma KeepsKeysUnique(rows: seq<StateRow>, more: seq<StateRow>)
    ensures UniqueKeys(rows) ==> UniqueKeys(InsertStateRows(rows, more))
  {
    if UniqueKeys(rows) {
      KeysStayUnique(rows, more);
    }
  }

  /** So every row of the table is that of a state of an accepted snapshot. */
  lemma RowsStayGenuine(k: Hash, rows: seq<StateRow>, states: seq<State>, top: nat)
    requires AllInRange(states) && Fits(states, top)
    ensures AllGenuine(k, rows, top) ==> AllGenuine(k, InsertStateRows(rows, SnapshotRows(k, states, top)), top)
  {
    InsertedRows(rows, SnapshotRows(k, states, top));
    forall r | r in SnapshotRows(k, states, top)
      ensures Genuine(k, r, top)
    {
      var i :| 0 <= i < |states| && SnapshotRows(k, states, top)[i] == r;
      assert RowFor(k, r, states, i, top);
    }
  }

  /** The row that is stored for a state passes verifyStateMerkleProof for that state. */
  lemma StoredStateVerifies(k: Hash, states: seq<State>, i: nat, top: nat)
    requires AllInRange(states) && i < |states| && Fits(states, top)
    ensures StateAccepted(k, states[i], SnapshotRows(k, states, top)[i].metadata, top)
  {
    RowAccepts(k, SnapshotRows(k, states, top)[i], states, i, states[i], top);
  }
}
