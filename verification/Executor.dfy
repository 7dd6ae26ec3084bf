/** The executor's copy of one origin's message tree: filled from Sent logs, backed by the
    message table, rebuilt from it after a restart. */
module Executor {
  import opened Wrappers
  import opened Numbers
  import opened Bytes
  import opened Hashing
  import opened MerkleSpec
  import opened HistoricalTrees
  import opened MessageEncoder
  import opened MessageLeaf
  import opened Encoder
  import opened Snapshot
  import S = StateTable

  // ----- the message table -----

  /** Messages are kept encoded. */
  datatype Row = Row(destination: uint32, nonce: uint32, payload: Bytes)

  function RowOf(m: Message): Row
    requires HasBase(m)
  {
    Row(m.header.destinationDomain, m.header.nonce, EncodeMessage(m))
  }

  /** Rows come in the order of their nonces; a row whose key exists already changes nothing. */
  function InsertRow(rows: seq<Row>, row: Row): seq<Row>
  {
    if rows == [] then [row]
    else
      var front, last := rows[..|rows| - 1], rows[|rows| - 1];
      if last.nonce == row.nonce && last.destination == row.destination then rows
      else if last.nonce >= row.nonce then InsertRow(front, row) + [last]
      else rows + [row]
  }

  predicate SortedRows(rows: seq<Row>)
  {
    forall i, j :: 0 <= i < j < |rows| ==> rows[i].nonce <= rows[j].nonce
  }

  predicate HasKey(rows: seq<Row>, row: Row)
  {
    exists x :: x in rows && x.nonce == row.nonce && x.destination == row.destination
  }

  /** Inserting adds the row exactly if its key is not there, and nothing else. */
  lemma {:induction false} InsertRowElements(rows: seq<Row>, row: Row)
    requires SortedRows(rows)
    ensures |InsertRow(rows, row)| == |rows| + (if HasKey(rows, row) then 0 else 1)
    ensures forall r :: r in InsertRow(rows, row) <==> r in rows || (r == row && !HasKey(rows, row))
  {
    if rows == [] {
    } else {
      var front, last := rows[..|rows| - 1], rows[|rows| - 1];
      assert rows == front + [last];
      assert HasKey(rows, row) <==>
        HasKey(front, row) || (last.nonce == row.nonce && last.destination == row.destination);
      if last.nonce >= row.nonce {
        InsertRowElements(front, row);
      } else {
        assert forall x :: x in rows ==> x.nonce <= last.nonce;
      }
    }
  }

  /** And it keeps the order of the nonces. */
  lemma {:induction false} InsertRowSorted(rows: seq<Row>, row: Row)
    requires SortedRows(rows)
    ensures SortedRows(InsertRow(rows, row))
  {
    if rows == [] {
    } else {
      var front, last := rows[..|rows| - 1], rows[|rows| - 1];
      if last.nonce >= row.nonce && !(last.nonce == row.nonce && last.destination == row.destination) {
        InsertRowSorted(front, row);
        InsertRowElements(front, row);
        var r := InsertRow(front, row);
        forall i | 0 <= i < |r|
          ensures r[i].nonce <= last.nonce
        {
          assert r[i] in front || r[i] == row;
        }
      }
    }
  }

  class MessageStore {
    var rows: seq<Row>

    constructor ()
      ensures rows == []
    {
      rows := [];
    }

    method StoreMessage(m: Message, outcome: Outcome) returns (ok: bool)
      requires HasBase(m)
      modifies this
      ensures ok <==> outcome.Committed?
      ensures rows == if outcome.Refused? then old(rows) else InsertRow(old(rows), RowOf(m))
    {
      if !outcome.Refused? {
        rows := InsertRow(rows, RowOf(m));
      }
      ok := outcome.Committed?;
    }

    /** One page, decoded. */
    method GetMessages(page: nat, pageSize: nat) returns (r: Result<seq<Message>>)
      requires page >= 1 && pageSize >= 1
      ensures r == DecodeRows(Page(rows, page, pageSize))
    {
      var rowsOfPage := Page(rows, page, pageSize);
      var messages: seq<Message> := [];
      for i := 0 to |rowsOfPage|
        invariant DecodeRows(rowsOfPage[..i]) == Ok(messages)
      {
        assert rowsOfPage[..i + 1][..i] == rowsOfPage[..i];
        var m := DecodeRow(rowsOfPage[i]);
        if m.Err? {
          TryMapOk(DecodeRow, rowsOfPage);
          return Err;
        }
        messages := messages + [m.value];
      }
      assert rowsOfPage[..|rowsOfPage|] == rowsOfPage;
      r := Ok(messages);
    }
  }

  /** Offset (page - 1) * pageSize, limit pageSize. */
  function Page(rows: seq<Row>, page: nat, pageSize: nat): seq<Row>
    requires page >= 1
  {
    rows[Min((page - 1) * pageSize, |rows|)..Min(page * pageSize, |rows|)]
  }

  function DecodeRow(row: Row): Result<Message>
  {
    if |row.payload| < MESSAGE_HEADER_SIZE then Err else DecodeMessage(row.payload)
  }

  function DecodeRows(rows: seq<Row>): (r: Result<seq<Message>>)
    ensures r.Ok? ==> |r.value| == |rows|
  {
    TryMap(DecodeRow, rows)
  }

  /** What a decoded row may be hashed as. */
  lemma DecodedHasBase(row: Row)
    requires DecodeRow(row).Ok?
    ensures HasBase(DecodeRow(row).value)
  {
    MessageBytes(row.payload);
  }

  lemma DecodedAllHaveBase(rows: seq<Row>)
    requires DecodeRows(rows).Ok?
    ensures AllHaveBase(DecodeRows(rows).value)
  {
    TryMapOk(DecodeRow, rows);
    forall i | 0 <= i < |rows|
      ensures HasBase(DecodeRows(rows).value[i])
    {
      DecodedHasBase(rows[i]);
    }
  }

  // ----- leaves of messages -----

  predicate AllHaveBase(ms: seq<Message>)
  {
    forall i :: 0 <= i < |ms| ==> HasBase(ms[i])
  }

  function Leaves(k: Hash, ms: seq<Message>): (leaves: seq<Bytes>)
    requires AllHaveBase(ms)
    ensures |leaves| == |ms|
    ensures forall i :: 0 <= i < |ms| ==> leaves[i] == ToLeaf(k, ms[i])
  {
    if ms == [] then [] else Leaves(k, ms[..|ms| - 1]) + [ToLeaf(k, ms[|ms| - 1])]
  }

  function Rows(ms: seq<Message>): (rows: seq<Row>)
    requires AllHaveBase(ms)
    ensures |rows| == |ms|
    ensures forall i :: 0 <= i < |ms| ==> rows[i] == RowOf(ms[i])
  {
    if ms == [] then [] else Rows(ms[..|ms| - 1]) + [RowOf(ms[|ms| - 1])]
  }

  /** `nonce - 1` in 32 bits. */
  function IndexOf(nonce: nat): (index: uint32)
    requires nonce < 0x1_0000_0000
    ensures index == if nonce == 0 then 0xFFFF_FFFF else nonce - 1
  {
    U32(nonce + 0xFFFF_FFFF)
  }

  // ----- one log -----

  datatype Memory = Memory(leaves: seq<Bytes>, rows: seq<Row>)

  /** The next nonce is inserted and stored, an older one is skipped, a later one is an error. */
  function ProcessOne(k: Hash, mem: Memory, m: Message, outcome: Outcome): (Memory, bool)
    requires HasBase(m)
  {
    if |mem.leaves| + 1 > m.header.nonce then (mem, true)
    else if |mem.leaves| + 1 < m.header.nonce then (mem, false)
    else
      (Memory(mem.leaves + [ToLeaf(k, m)],
              if outcome.Refused? then mem.rows else InsertRow(mem.rows, RowOf(m))),
       outcome.Committed?)
  }

  /** Logs one after the other, until one returns an error. */
  function Receive(k: Hash, mem: Memory, logs: seq<(Message, Outcome)>): (Memory, bool)
    requires forall i :: 0 <= i < |logs| ==> HasBase(logs[i].0)
  {
    if logs == [] then (mem, true)
    else
      var (front, ok) := Receive(k, mem, logs[..|logs| - 1]);
      if ok then ProcessOne(k, front, logs[|logs| - 1].0, logs[|logs| - 1].1) else (front, false)
  }

  lemma {:induction false} ReceiveStopped(k: Hash, mem: Memory, logs: seq<(Message, Outcome)>, i: nat)
    requires i <= |logs| && forall j :: 0 <= j < |logs| ==> HasBase(logs[j].0)
    requires !Receive(k, mem, logs[..i]).1
    ensures Receive(k, mem, logs) == Receive(k, mem, logs[..i])
  {
    if i == |logs| {
      assert logs[..i] == logs;
    } else {
      assert logs[..|logs| - 1][..i] == logs[..i];
      ReceiveStopped(k, mem, logs[..|logs| - 1], i);
    }
  }

  /** What a restart makes of the table. */
  function Rebuilt(k: Hash, rows: seq<Row>): Memory
    requires DecodeRows(rows).Ok?
  {
    DecodedAllHaveBase(rows);
    Memory(Leaves(k, DecodeRows(rows).value), rows)
  }

  class ChainExecutor {
    const k: Hash
    const db: MessageStore
    var merkleTree: HistoricalTree

    ghost predicate Valid()
      reads this, merkleTree
    {
      merkleTree.Valid() && merkleTree.k == k
    }

    /** Room for one more leaf. */
    ghost predicate HasRoom(n: nat)
      reads this, merkleTree
    {
      && |merkleTree.leaves| + n <= Shl(1, merkleTree.treeHeight)
      && |merkleTree.leaves| + n < 0x1_0000_0000
    }

    ghost function Mem(): Memory
      reads this, merkleTree, db
    {
      Memory(merkleTree.leaves, db.rows)
    }

    /** NewExecutor rebuilds the tree. */
    constructor (k: Hash, db: MessageStore, tree: HistoricalTree)
      requires tree.Valid() && tree.k == k
      ensures this.k == k && this.db == db && merkleTree == tree
    {
      this.k, this.db, merkleTree := k, db, tree;
    }

    method ProcessMessage(m: Message, outcome: Outcome) returns (ok: bool)
      requires Valid() && HasRoom(1) && HasBase(m)
      modifies merkleTree, db
      ensures Valid() && (Mem(), ok) == ProcessOne(k, old(Mem()), m, outcome)
    {
      var merkleIndex := merkleTree.NumOfItems();
      var leaf := ToLeaf(k, m);
      if merkleIndex + 1 > m.header.nonce {
        return true;
      } else if merkleIndex + 1 < m.header.nonce {
        return false;
      }
      merkleTree.Insert(leaf);
      ok := db.StoreMessage(m, outcome);
    }

    method ReceiveLogs(logs: seq<(Message, Outcome)>) returns (ok: bool)
      requires Valid() && HasRoom(|logs|) && forall i :: 0 <= i < |logs| ==> HasBase(logs[i].0)
      modifies merkleTree, db
      ensures Valid() && (Mem(), ok) == Receive(k, old(Mem()), logs)
    {
      ok := true;
      for i := 0 to |logs|
        invariant Valid() && HasRoom(|logs| - i)
        invariant (Mem(), true) == Receive(k, old(Mem()), logs[..i])
      {
        assert logs[..i + 1][..i] == logs[..i];
        ok := ProcessMessage(logs[i].0, logs[i].1);
        if !ok {
          ReceiveStopped(k, old(Mem()), logs, i + 1);
          return;
        }
      }
      assert logs[..|logs|] == logs;
    }

    /** Whether the message is the leaf at its nonce, checked with a proof from the tree. */
    method VerifyMessageMerkleProof(m: Message) returns (r: Result<bool>)
      requires Valid() && HasBase(m)
      ensures r.Ok? <==> 1 <= m.header.nonce <= |merkleTree.leaves|
      ensures r.Ok? ==>
        (r.value <==> InTree(k, merkleTree.leaves, m, m.header.nonce, merkleTree.treeHeight))
    {
      r := VerifyLeaf(ToLeaf(k, m), m.header.nonce);
    }

    /** The check for any leaf. */
    method VerifyLeaf(leaf: Bytes, nonce: uint32) returns (r: Result<bool>)
      requires Valid()
      ensures r.Ok? <==> 1 <= nonce <= |merkleTree.leaves|
      ensures r.Ok? ==>
        (r.value <==> LeafInTree(k, merkleTree.leaves, leaf, nonce, merkleTree.treeHeight))
    {
      var root := merkleTree.Root(nonce);
      if root.Err? {
        return Err;
      }
      var proof := merkleTree.MerkleProof(IndexOf(nonce), nonce);
      if proof.Err? {
        return Err;
      }
      var inTree := VerifyMerkleProof(k, root.value, leaf, nonce - 1, proof.value, merkleTree.treeHeight);
      r := Ok(inTree);
    }

    /** The decision to execute a message, and the proofs that are submitted with it. The state is
        what the database answered; its metadata is looked up twice. */
    method Execute(m: Message, oldEnough: bool, state: Option<State>, states: S.StateStore, snapshotHeight: nat)
      returns (r: Result<Option<Submission>>)
      requires Valid() && HasBase(m)
      ensures r.Err? <==>
        && oldEnough && state.Some?
        && (|| !(1 <= m.header.nonce <= state.value.nonce <= |merkleTree.leaves|)
            || (&& InTree(k, merkleTree.leaves, m, m.header.nonce, merkleTree.treeHeight)
                && S.HasMatch(states.rows, S.CheckMask(state.value)) && !StateInRange(state.value)))
      ensures r.Ok? && r.value.Some? ==>
        && oldEnough && state.Some?
        && 1 <= m.header.nonce <= state.value.nonce <= |merkleTree.leaves|
        && InTree(k, merkleTree.leaves, m, m.header.nonce, merkleTree.treeHeight)
        && S.Checked(k, states.rows, state.value, snapshotHeight)
        && r.value.value.originProof
           == ProofAt(k, merkleTree.leaves, m.header.nonce - 1, state.value.nonce, merkleTree.treeHeight)
        && S.SubmittedFrom(states.rows, state.value, r.value.value.snapshotProof, r.value.value.stateIndex)
      ensures state.Some? && S.Sound(k, states.rows, state.value, snapshotHeight) ==>
        (r.Ok? && r.value.Some? <==>
           && oldEnough
           && 1 <= m.header.nonce <= state.value.nonce <= |merkleTree.leaves|
           && InTree(k, merkleTree.leaves, m, m.header.nonce, merkleTree.treeHeight)
           && StateInRange(state.value) && S.HasMatch(states.rows, S.SubmitMask(state.value)))
      ensures r.Ok? && r.value.Some? && S.Sound(k, states.rows, state.value, snapshotHeight)
        && Shl(1, snapshotHeight) <= 0x200
        ==> S.ProvedBySubmission(k, states.rows, state.value, r.value.value.snapshotProof,
                                 r.value.value.stateIndex, snapshotHeight)
    {
      if !oldEnough {
        return Ok(None);
      }
      if state == None {
        return Ok(None);
      }
      var proof := merkleTree.MerkleProof(IndexOf(m.header.nonce), state.value.nonce);
      if proof.Err? {
        return Err;
      }
      var verifiedMessageProof := VerifyMessageMerkleProof(m);
      if verifiedMessageProof.Err? {
        return Err;
      }
      if !verifiedMessageProof.value {
        return Ok(None);
      }
      r := SubmitWithState(proof.value, state.value, states, snapshotHeight);
      if r.Ok? && r.value.Some? && S.Sound(k, states.rows, state.value, snapshotHeight)
         && Shl(1, snapshotHeight) <= 0x200 {
        S.SubmissionVerifies(k, states.rows, state.value, r.value.value.snapshotProof,
                             r.value.value.stateIndex, snapshotHeight);
      }
    }

    /** The second half of Execute: the check of the state, and the submission. */
    method SubmitWithState(originProof: seq<Bytes>, state: State, states: S.StateStore, snapshotHeight: nat)
      returns (r: Result<Option<Submission>>)
      ensures r.Err? <==> S.HasMatch(states.rows, S.CheckMask(state)) && !StateInRange(state)
      ensures r.Ok? && r.value.Some? ==>
        && r.value.value.originProof == originProof
        && StateInRange(state) && S.Checked(k, states.rows, state, snapshotHeight)
        && S.SubmittedFrom(states.rows, state, r.value.value.snapshotProof, r.value.value.stateIndex)
      ensures S.Sound(k, states.rows, state, snapshotHeight) ==>
        (r.Ok? && r.value.Some? <==> StateInRange(state) && S.HasMatch(states.rows, S.SubmitMask(state)))
    {
      if S.HasMatch(states.rows, S.SubmitMask(state)) {
        S.SubmitMatchesCheck(states.rows, state);
      }
      SubLeavesArePair(k, state);
      var verifiedStateProof := VerifyStateMerkleProof(k, state, states, snapshotHeight);
      if verifiedStateProof.Err? {
        return Err;
      }
      if !verifiedStateProof.value {
        return Ok(None);
      }
      var found := states.GetStateMetadata(S.SubmitMask(state));
      if found == None {
        return Ok(None);
      }
      r := Ok(Some(Submission(originProof, found.value.proof, found.value.stateIndex % 0x100)));
    }
  }

  /** The part of NewExecutor that makes the executor of one chain. */
  method NewChainExecutor(k: Hash, db: MessageStore, pageSize: nat, treeHeight: nat)
    returns (e: Result<ChainExecutor>)
    requires pageSize >= 1 && treeHeight < 64
    requires |db.rows| <= Shl(1, treeHeight) && |db.rows| < 0x1_0000_0000
    ensures e.Ok? <==> DecodeRows(db.rows).Ok?
    ensures e.Ok? ==> fresh(e.value) && e.value.Valid() && e.value.Mem() == Rebuilt(k, db.rows)
  {
    var tree := NewTreeFromDB(k, db, pageSize, treeHeight);
    if tree.Err? {
      return Err;
    }
    var executor := new ChainExecutor(k, db, tree.value);
    e := Ok(executor);
  }

  /** The message's leaf, with the tree's proof at the message's own nonce, gives the root of
      that time. */
  predicate InTree(k: Hash, leaves: seq<Bytes>, m: Message, nonce: nat, top: nat)
    requires HasBase(m) && 1 <= nonce <= |leaves|
  {
    LeafInTree(k, leaves, ToLeaf(k, m), nonce, top)
  }

  predicate LeafInTree(k: Hash, leaves: seq<Bytes>, leaf: Bytes, nonce: nat, top: nat)
    requires 1 <= nonce <= |leaves|
  {
    Verifies(k, RootAt(k, leaves, nonce, top), leaf, nonce - 1, ProofAt(k, leaves, nonce - 1, nonce, top), top)
  }

  /** The contract takes the state's index as one byte. */
  datatype Submission = Submission(originProof: seq<Bytes>, snapshotProof: seq<Bytes>, stateIndex: byte)

  /** Whether the state passes against the snapshot of some row with its root and origin. */
  method VerifyStateMerkleProof(k: Hash, state: State, states: S.StateStore, snapshotHeight: nat)
    returns (r: Result<bool>)
    ensures r.Err? <==> S.HasMatch(states.rows, S.CheckMask(state)) && SubLeaves(k, state).Err?
    ensures r == Ok(true) ==> StateInRange(state) && S.Checked(k, states.rows, state, snapshotHeight)
    ensures r == Ok(false) && S.HasMatch(states.rows, S.CheckMask(state)) ==> exists m ::
      S.Found(states.rows, S.CheckMask(state), m) && !S.StateAccepted(k, state, m, snapshotHeight)
    ensures !S.HasMatch(states.rows, S.CheckMask(state)) ==> r == Ok(false)
    ensures S.Sound(k, states.rows, state, snapshotHeight) ==>
      (r == Ok(true) <==> S.HasMatch(states.rows, S.CheckMask(state)) && StateInRange(state))
  {
    SubLeavesArePair(k, state);
    var metadata := states.GetStateMetadata(S.CheckMask(state));
    if metadata == None {
      return Ok(false);
    }
    var leaves := SubLeaves(k, state);
    if leaves.Err? {
      return Err;
    }
    if S.Sound(k, states.rows, state, snapshotHeight) {
      S.LookupAccepts(k, states.rows, S.CheckMask(state), metadata.value, state, snapshotHeight);
    }
    var inTree := VerifyMerkleProof(k, metadata.value.snapshotRoot, leaves.value.0,
                                    U32(metadata.value.stateIndex * 2), metadata.value.proof, snapshotHeight);
    assert inTree <==> S.StateAccepted(k, state, metadata.value, snapshotHeight);
    r := Ok(inTree);
  }

  /** Reads the table page by page until a page is empty, and inserts all leaves. */
  method NewTreeFromDB(k: Hash, db: MessageStore, pageSize: nat, treeHeight: nat)
    returns (tree: Result<HistoricalTree>)
    requires pageSize >= 1 && treeHeight < 64
    requires |db.rows| <= Shl(1, treeHeight) && |db.rows| < 0x1_0000_0000
    ensures tree.Ok? <==> DecodeRows(db.rows).Ok?
    ensures tree.Ok? ==>
      && fresh(tree.value) && tree.value.Valid()
      && tree.value.k == k && tree.value.treeHeight == treeHeight
      && AllHaveBase(DecodeRows(db.rows).value)
      && tree.value.leaves == Leaves(k, DecodeRows(db.rows).value)
  {
    var allMessages := ReadAllPages(db, pageSize);
    if allMessages.Err? {
      return Err;
    }
    DecodedAllHaveBase(db.rows);
    var rawMessages := RawMessages(k, allMessages.value);
    var t := HistoricalTree.NewTreeFromItems(k, rawMessages, treeHeight);
    tree := Ok(t);
  }

  method RawMessages(k: Hash, messages: seq<Message>) returns (rawMessages: seq<Bytes>)
    requires AllHaveBase(messages)
    ensures rawMessages == Leaves(k, messages)
  {
    rawMessages := [];
    for i := 0 to |messages|
      invariant rawMessages == Leaves(k, messages[..i])
    {
      assert messages[..i + 1][..i] == messages[..i];
      rawMessages := rawMessages + [ToLeaf(k, messages[i])];
    }
    assert messages[..|messages|] == messages;
  }

  lemma PageAfter(rows: seq<Row>, page: nat, pageSize: nat)
    requires page >= 1 && pageSize >= 1
    ensures var done := Min((page - 1) * pageSize, |rows|);
      && rows[..Min(page * pageSize, |rows|)] == rows[..done] + Page(rows, page, pageSize)
      && (Page(rows, page, pageSize) == [] <==> done == |rows|)
  {
    assert page * pageSize == (page - 1) * pageSize + pageSize;
  }

  method ReadAllPages(db: MessageStore, pageSize: nat) returns (r: Result<seq<Message>>)
    requires pageSize >= 1
    ensures r == DecodeRows(db.rows)
  {
    var allMessages: seq<Message> := [];
    var page := 1;
    while true
      invariant page >= 1
      invariant DecodeRows(db.rows[..Min((page - 1) * pageSize, |db.rows|)]) == Ok(allMessages)
      decreases |db.rows| - Min((page - 1) * pageSize, |db.rows|)
    {
      var done := Min((page - 1) * pageSize, |db.rows|);
      PageAfter(db.rows, page, pageSize);
      var messages := db.GetMessages(page, pageSize);
      TryMapConcat(DecodeRow, db.rows[..done], Page(db.rows, page, pageSize));
      if messages.Err? {
        var upTo := Min(page * pageSize, |db.rows|);
        TryMapConcat(DecodeRow, db.rows[..upTo], db.rows[upTo..]);
        assert db.rows[..upTo] + db.rows[upTo..] == db.rows;
        return Err;
      }
      if |messages.value| == 0 {
        assert db.rows[..done] == db.rows;
        return Ok(allMessages);
      }
      allMessages := allMessages + messages.value;
      page := page + 1;
    }
  }

  // ----- runs: logs in any order, failures, crashes and restarts -----

  /** The executor of one origin. The memory outlives the failure that stopped the process only
      in the sense that other loops may still read it; a restart rebuilds it from the rows. */
  datatype Process = Process(mem: Memory, running: bool)

  datatype Event = Log(m: Message, outcome: Outcome) | Crash | Restart

  /** What the origin sent: message number i + 1 at index i. */
  predicate Canonical(sent: seq<Message>)
  {
    forall i :: 0 <= i < |sent| ==> WellFormed(sent[i]) && sent[i].header.nonce == i + 1
  }

  /** Logs repeat and come in any order, but they are the origin's messages. */
  predicate Possible(sent: seq<Message>, p: Process, ev: Event)
  {
    match ev
    case Log(m, _) => p.running && m in sent
    case Crash => true
    case Restart => !p.running && DecodeRows(p.mem.rows).Ok?
  }

  function Next(k: Hash, sent: seq<Message>, p: Process, ev: Event): Process
    requires Canonical(sent) && Possible(sent, p, ev)
  {
    match ev
    case Log(m, outcome) =>
      var (mem, ok) := ProcessOne(k, p.mem, m, outcome);
      Process(mem, ok)
    case Crash => p.(running := false)
    case Restart => Process(Rebuilt(k, p.mem.rows), true)
  }

  const START := Process(Memory([], []), true)

  /** Where a run ends that begins at `p`, if its events are possible. */
  function Run(k: Hash, sent: seq<Message>, p: Process, run: seq<Event>): Option<Process>
    requires Canonical(sent)
  {
    if run == [] then Some(p)
    else
      var prev := Run(k, sent, p, run[..|run| - 1]);
      if prev.Some? && Possible(sent, prev.value, run[|run| - 1])
      then Some(Next(k, sent, prev.value, run[|run| - 1])) else None
  }

  predicate AllSent(sent: seq<Message>, logs: seq<(Message, Outcome)>)
  {
    forall i :: 0 <= i < |logs| ==> HasBase(logs[i].0) && logs[i].0 in sent
  }

  /** The events of the logs that are processed: up to the first error. */
  function LogEvents(k: Hash, mem: Memory, logs: seq<(Message, Outcome)>): seq<Event>
    requires forall i :: 0 <= i < |logs| ==> HasBase(logs[i].0)
  {
    if logs == [] then []
    else
      var front := logs[..|logs| - 1];
      LogEvents(k, mem, front)
      + if Receive(k, mem, front).1 then [Log(logs[|logs| - 1].0, logs[|logs| - 1].1)] else []
  }

  /** The loop over the logs is a run of their events, and it stops as the run does. */
  lemma {:induction false} ReceiveIsRun(k: Hash, sent: seq<Message>, p: Process, logs: seq<(Message, Outcome)>)
    requires Canonical(sent) && p.running && AllSent(sent, logs)
    ensures var (mem, ok) := Receive(k, p.mem, logs);
      Run(k, sent, p, LogEvents(k, p.mem, logs)) == Some(Process(mem, ok))
  {
    if logs == [] {
    } else {
      var front := logs[..|logs| - 1];
      ReceiveIsRun(k, sent, p, front);
      if Receive(k, p.mem, front).1 {
        var ev := Log(logs[|logs| - 1].0, logs[|logs| - 1].1);
        assert (LogEvents(k, p.mem, front) + [ev])[..|LogEvents(k, p.mem, front)|] == LogEvents(k, p.mem, front);
      } else {
        assert LogEvents(k, p.mem, front) + [] == LogEvents(k, p.mem, front);
      }
    }
  }

  /** One log, exactly: an older one changes nothing, the next one is added, and a later one is an
      error. */
  lemma LogOutcome(k: Hash, sent: seq<Message>, n: nat, m: Message, outcome: Outcome)
    requires Canonical(sent) && n <= |sent| && m in sent
    ensures HasBase(m)
    ensures ProcessOne(k, UpTo(k, sent, n).mem, m, outcome).1
       <==> m.header.nonce <= n || (m.header.nonce == n + 1 && outcome.Committed?)
    ensures m.header.nonce != n + 1 ==> ProcessOne(k, UpTo(k, sent, n).mem, m, outcome).0 == UpTo(k, sent, n).mem
    ensures m.header.nonce == n + 1 && outcome.Committed? ==>
      n < |sent| && ProcessOne(k, UpTo(k, sent, n).mem, m, outcome).0 == UpTo(k, sent, n + 1).mem
  {
    SentAt(sent, m);
    if m.header.nonce == n + 1 {
      InsertLast(sent, n);
      LeafAfter(k, sent, n);
    }
  }

  /** The highest of `n` and the nonces of the logs. */
  function Reach(n: nat, logs: seq<(Message, Outcome)>): nat
  {
    if logs == [] then n else Max(Reach(n, logs[..|logs| - 1]), logs[|logs| - 1].0.header.nonce)
  }

  /** No log comes before the one that precedes it on the origin. */
  predicate NoGap(n: nat, logs: seq<(Message, Outcome)>)
  {
    if logs == [] then true
    else
      && NoGap(n, logs[..|logs| - 1])
      && logs[|logs| - 1].0.header.nonce <= Reach(n, logs[..|logs| - 1]) + 1
  }

  predicate AllCommitted(logs: seq<(Message, Outcome)>)
  {
    forall i :: 0 <= i < |logs| ==> logs[i].1.Committed?
  }

  /** With a store that works, the loop succeeds exactly if no log is missing before another one;
      then tree and table hold everything up to the highest nonce seen. */
  lemma {:induction false} ReceiveSucceedsIff(k: Hash, sent: seq<Message>, n: nat, logs: seq<(Message, Outcome)>)
    requires Canonical(sent) && n <= |sent| && AllSent(sent, logs) && AllCommitted(logs)
    ensures Receive(k, UpTo(k, sent, n).mem, logs).1 <==> NoGap(n, logs)
    ensures NoGap(n, logs) ==>
      Reach(n, logs) <= |sent| && Receive(k, UpTo(k, sent, n).mem, logs).0 == UpTo(k, sent, Reach(n, logs)).mem
  {
    if logs == [] {
    } else {
      var front, last := logs[..|logs| - 1], logs[|logs| - 1];
      ReceiveSucceedsIff(k, sent, n, front);
      if NoGap(n, front) {
        LogOutcome(k, sent, Reach(n, front), last.0, last.1);
      }
    }
  }

  /** So the methods keep tree and table in step: processing any logs that were sent. */
  lemma ReceiveInStep(k: Hash, sent: seq<Message>, p: Process, logs: seq<(Message, Outcome)>)
    requires Canonical(sent) && InStep(k, sent, p) && p.running && AllSent(sent, logs)
    ensures var (mem, ok) := Receive(k, p.mem, logs); InStep(k, sent, Process(mem, ok))
  {
    ReceiveIsRun(k, sent, p, logs);
    RunInStep(k, sent, p, LogEvents(k, p.mem, logs));
  }

  /** The tree holds the first messages in order; the table holds the same ones, or all but the
      last, and the latter only when the process has stopped. */
  ghost predicate InStep(k: Hash, sent: seq<Message>, p: Process)
    requires Canonical(sent)
  {
    var n, d := |p.mem.leaves|, |p.mem.rows|;
    && d <= n <= |sent| && n <= d + 1
    && p.mem.leaves == Leaves(k, sent[..n])
    && p.mem.rows == Rows(sent[..d])
    && (p.running ==> n == d)
  }

  lemma InsertLast(ms: seq<Message>, i: nat)
    requires Canonical(ms) && i < |ms|
    ensures InsertRow(Rows(ms[..i]), RowOf(ms[i])) == Rows(ms[..i + 1])
  {
    assert ms[..i + 1][..i] == ms[..i];
  }

  lemma RowDecodes(m: Message)
    requires WellFormed(m)
    ensures DecodeRow(RowOf(m)) == Ok(m)
  {
    MessageRoundTrip(m);
  }

  lemma RowsDecode(ms: seq<Message>)
    requires AllHaveBase(ms) && forall i :: 0 <= i < |ms| ==> WellFormed(ms[i])
    ensures DecodeRows(Rows(ms)) == Ok(ms)
  {
    forall i | 0 <= i < |ms|
      ensures DecodeRow(Rows(ms)[i]) == Ok(ms[i])
    {
      RowDecodes(ms[i]);
    }
    TryMapIs(DecodeRow, Rows(ms), ms);
  }

  lemma LogKeepsStep(k: Hash, sent: seq<Message>, p: Process, m: Message, outcome: Outcome)
    requires Canonical(sent) && InStep(k, sent, p) && Possible(sent, p, Log(m, outcome))
    ensures InStep(k, sent, Next(k, sent, p, Log(m, outcome)))
  {
    var n := |p.mem.leaves|;
    SentAt(sent, m);
    if m.header.nonce == n + 1 {
      InsertLast(sent, n);
      LeafAfter(k, sent, n);
    }
  }

  lemma SentAt(sent: seq<Message>, m: Message)
    requires Canonical(sent) && m in sent
    ensures WellFormed(m) && 1 <= m.header.nonce <= |sent| && m == sent[m.header.nonce - 1]
  {
  }

  lemma LeafAfter(k: Hash, sent: seq<Message>, n: nat)
    requires Canonical(sent) && n < |sent|
    ensures Leaves(k, sent[..n + 1]) == Leaves(k, sent[..n]) + [ToLeaf(k, sent[n])]
  {
    assert sent[..n + 1][..n] == sent[..n];
  }

  lemma RestartInStep(k: Hash, sent: seq<Message>, p: Process)
    requires Canonical(sent) && InStep(k, sent, p) && !p.running
    ensures Possible(sent, p, Restart) && InStep(k, sent, Next(k, sent, p, Restart))
    ensures |Next(k, sent, p, Restart).mem.leaves| == |p.mem.rows|
  {
    RowsDecode(sent[..|p.mem.rows|]);
  }

  /** After any run the tree holds exactly messages 1..n in order and the table 1..n or
      1..n-1. */
  lemma {:induction false} RunInStep(k: Hash, sent: seq<Message>, p: Process, run: seq<Event>)
    requires Canonical(sent) && InStep(k, sent, p) && Run(k, sent, p, run).Some?
    ensures InStep(k, sent, Run(k, sent, p, run).value)
  {
    if run == [] {
    } else {
      RunInStep(k, sent, p, run[..|run| - 1]);
      var prev, ev := Run(k, sent, p, run[..|run| - 1]).value, run[|run| - 1];
      match ev
      case Log(m, outcome) => LogKeepsStep(k, sent, prev, m, outcome);
      case Crash =>
      case Restart => RestartInStep(k, sent, prev);
    }
  }

  lemma ReachableInStep(k: Hash, sent: seq<Message>, run: seq<Event>)
    requires Canonical(sent) && Run(k, sent, START, run).Some?
    ensures InStep(k, sent, Run(k, sent, START, run).value)
  {
    RunInStep(k, sent, START, run);
  }

  /** A restart, then the logs from message `lo` + 1 on, all of them stored. */
  function RecoveryEvent(sent: seq<Message>, lo: nat, i: nat): Event
    requires lo + i <= |sent|
  {
    if i == 0 then Restart else Log(sent[lo + i - 1], Committed)
  }

  /** Up to message `hi`. */
  function Recovery(sent: seq<Message>, lo: nat, hi: nat): (run: seq<Event>)
    requires lo <= hi <= |sent|
    ensures |run| == hi - lo + 1
  {
    seq(hi - lo + 1, i requires 0 <= i <= hi - lo => RecoveryEvent(sent, lo, i))
  }

  function UpTo(k: Hash, sent: seq<Message>, n: nat): Process
    requires Canonical(sent) && n <= |sent|
  {
    Process(Memory(Leaves(k, sent[..n]), Rows(sent[..n])), true)
  }

  predicate Leads(k: Hash, sent: seq<Message>, p: Process, ev: Event, q: Process)
    requires Canonical(sent)
  {
    Possible(sent, p, ev) && Next(k, sent, p, ev) == q
  }

  lemma RestartUpTo(k: Hash, sent: seq<Message>, p: Process)
    requires Canonical(sent) && InStep(k, sent, p) && !p.running
    ensures Leads(k, sent, p, Restart, UpTo(k, sent, |p.mem.rows|))
  {
    RestartInStep(k, sent, p);
  }

  lemma LogUpTo(k: Hash, sent: seq<Message>, n: nat, i: nat)
    requires Canonical(sent) && i <= n <= |sent| && i < |sent|
    ensures Leads(k, sent, UpTo(k, sent, n), Log(sent[i], Committed), UpTo(k, sent, Max(n, i + 1)))
  {
    if i == n {
      InsertLast(sent, n);
      LeafAfter(k, sent, n);
    }
  }

  predicate Along(k: Hash, sent: seq<Message>, run: seq<Event>, states: seq<Process>)
    requires Canonical(sent) && |states| == |run| + 1
  {
    forall i :: 0 <= i < |run| ==> Leads(k, sent, states[i], run[i], states[i + 1])
  }

  /** A run whose states are known one by one. */
  lemma {:induction false} RunAlong(k: Hash, sent: seq<Message>, run: seq<Event>, states: seq<Process>)
    requires Canonical(sent) && |states| == |run| + 1 && Along(k, sent, run, states)
    ensures Run(k, sent, states[0], run) == Some(states[|run|])
  {
    if run == [] {
    } else {
      RunAlong(k, sent, run[..|run| - 1], states[..|run|]);
      assert Leads(k, sent, states[|run| - 1], run[|run| - 1], states[|run|]);
    }
  }

  /** The states of a recovery: from the first log on, what the table held or what was sent
      again, whichever is more. */
  function RecoveryState(k: Hash, sent: seq<Message>, p: Process, lo: nat, i: nat): Process
    requires Canonical(sent) && |p.mem.rows| <= |sent| && lo + i <= |sent| + 1
  {
    if i == 0 then p else UpTo(k, sent, Max(|p.mem.rows|, lo + i - 1))
  }

  function RecoveryStates(k: Hash, sent: seq<Message>, p: Process, lo: nat, hi: nat): (states: seq<Process>)
    requires Canonical(sent) && |p.mem.rows| <= |sent| && lo <= hi <= |sent|
    ensures |states| == hi - lo + 2
    ensures states[0] == p && states[hi - lo + 1] == UpTo(k, sent, Max(|p.mem.rows|, hi))
  {
    seq(hi - lo + 2, i requires 0 <= i < hi - lo + 2 => RecoveryState(k, sent, p, lo, i))
  }

  lemma RecoveryLeads(k: Hash, sent: seq<Message>, p: Process, lo: nat, i: nat)
    requires Canonical(sent) && InStep(k, sent, p) && !p.running
    requires lo <= |p.mem.rows| && lo + i <= |sent|
    ensures Leads(k, sent, RecoveryState(k, sent, p, lo, i), RecoveryEvent(sent, lo, i),
                  RecoveryState(k, sent, p, lo, i + 1))
  {
    if i == 0 {
      RestartUpTo(k, sent, p);
    } else {
      RecoveryLogLeads(k, sent, p, lo, i);
    }
  }

  lemma RecoveryLogLeads(k: Hash, sent: seq<Message>, p: Process, lo: nat, i: nat)
    requires Canonical(sent) && 0 < i && lo + i <= |sent| && lo <= |p.mem.rows| <= |sent|
    ensures Leads(k, sent, RecoveryState(k, sent, p, lo, i), RecoveryEvent(sent, lo, i),
                  RecoveryState(k, sent, p, lo, i + 1))
  {
    LogUpTo(k, sent, Max(|p.mem.rows|, lo + i - 1), lo + i - 1);
  }

  lemma RecoveryAlong(k: Hash, sent: seq<Message>, p: Process, lo: nat, hi: nat)
    requires Canonical(sent) && InStep(k, sent, p) && !p.running
    requires lo <= hi <= |sent| && lo <= |p.mem.rows|
    ensures Along(k, sent, Recovery(sent, lo, hi), RecoveryStates(k, sent, p, lo, hi))
  {
    forall i | 0 <= i < hi - lo + 1
      ensures Leads(k, sent, RecoveryStates(k, sent, p, lo, hi)[i], Recovery(sent, lo, hi)[i],
                    RecoveryStates(k, sent, p, lo, hi)[i + 1])
    {
      RecoveryLeads(k, sent, p, lo, i);
    }
  }

  /** Recovery: whatever happened before, a stopped process that restarts and is sent the logs
      again, from no later than its first missing row, has all of them in tree and table. */
  lemma RecoveryConverges(k: Hash, sent: seq<Message>, p: Process, lo: nat, hi: nat)
    requires Canonical(sent) && InStep(k, sent, p) && !p.running
    requires lo <= hi <= |sent| && lo <= |p.mem.rows|
    ensures Run(k, sent, p, Recovery(sent, lo, hi)) == Some(UpTo(k, sent, Max(|p.mem.rows|, hi)))
  {
    RecoveryAlong(k, sent, p, lo, hi);
    RunAlong(k, sent, Recovery(sent, lo, hi), RecoveryStates(k, sent, p, lo, hi));
  }

  // ----- where the stream of logs begins -----

  /** The block of the log of each message; later messages are not in earlier blocks. */
  predicate InOrder(blocks: seq<nat>)
  {
    forall i, j :: 0 <= i <= j < |blocks| ==> blocks[i] <= blocks[j]
  }

  /** A row is stored with the block of its log. */
  function BlockOf(blocks: seq<nat>, row: Row): nat
  {
    if 1 <= row.nonce <= |blocks| then blocks[row.nonce - 1] else 0
  }

  /** The highest stored block, 0 for an empty table. */
  function LastBlock(blocks: seq<nat>, rows: seq<Row>): nat
  {
    if rows == [] then 0
    else Max(LastBlock(blocks, rows[..|rows| - 1]), BlockOf(blocks, rows[|rows| - 1]))
  }

  lemma {:induction false} LastBlockIsHighest(blocks: seq<nat>, rows: seq<Row>)
    ensures forall r :: r in rows ==> BlockOf(blocks, r) <= LastBlock(blocks, rows)
    ensures rows == [] ==> LastBlock(blocks, rows) == 0
    ensures rows != [] ==> exists r :: r in rows && BlockOf(blocks, r) == LastBlock(blocks, rows)
  {
    if rows == [] {
    } else {
      var front, last := rows[..|rows| - 1], rows[|rows| - 1];
      LastBlockIsHighest(blocks, front);
      assert rows == front + [last] && last in rows;
      if front != [] {
        var r :| r in front && BlockOf(blocks, r) == LastBlock(blocks, front);
        assert r in rows;
      }
    }
  }

  /** How many logs a stream from block `from` leaves out. */
  function LeftOut(blocks: seq<nat>, from: nat): (n: nat)
    ensures n <= |blocks|
  {
    if blocks == [] || blocks[0] >= from then 0 else 1 + LeftOut(blocks[1..], from)
  }

  lemma {:induction false} StreamedIff(blocks: seq<nat>, from: nat, i: nat)
    requires InOrder(blocks) && i < |blocks|
    ensures blocks[i] >= from <==> LeftOut(blocks, from) <= i
  {
    if blocks[0] >= from {
    } else if i > 0 {
      StreamedIff(blocks[1..], from, i - 1);
    }
  }

  lemma {:induction false} LastBlockAtMost(blocks: seq<nat>, rows: seq<Row>, d: nat)
    requires InOrder(blocks) && 0 < d <= |blocks|
    requires forall i :: 0 <= i < |rows| ==> rows[i].nonce <= d
    ensures LastBlock(blocks, rows) <= blocks[d - 1]
  {
    if rows == [] {
    } else {
      LastBlockAtMost(blocks, rows[..|rows| - 1], d);
    }
  }

  /** The stream from the highest stored block begins no later than the first missing row. */
  lemma StreamBeginsInTime(blocks: seq<nat>, rows: seq<Row>)
    requires InOrder(blocks) && |rows| <= |blocks| && CountsUp(rows)
    ensures LeftOut(blocks, LastBlock(blocks, rows)) <= |rows|
  {
    if rows == [] {
    } else {
      LastBlockAtMost(blocks, rows, |rows|);
      StreamedIff(blocks, LastBlock(blocks, rows), |rows| - 1);
    }
  }

  lemma RowNonce(ms: seq<Message>, i: nat)
    requires AllHaveBase(ms) && i < |ms|
    ensures Rows(ms)[i].nonce == ms[i].header.nonce
  {
  }

  predicate CountsUp(rows: seq<Row>)
  {
    forall i :: 0 <= i < |rows| ==> rows[i].nonce == i + 1
  }

  lemma RowsCountUp(sent: seq<Message>, d: nat)
    requires Canonical(sent) && d <= |sent|
    ensures CountsUp(Rows(sent[..d]))
  {
    forall i | 0 <= i < d
      ensures Rows(sent[..d])[i].nonce == i + 1
    {
      RowNonce(sent[..d], i);
    }
  }

  lemma RowsBeginInTime(k: Hash, sent: seq<Message>, blocks: seq<nat>, p: Process)
    requires Canonical(sent) && InStep(k, sent, p) && InOrder(blocks) && |blocks| == |sent|
    ensures LeftOut(blocks, LastBlock(blocks, p.mem.rows)) <= |p.mem.rows| <= |sent|
  {
    RowsCountUp(sent, |p.mem.rows|);
    StreamBeginsInTime(blocks, p.mem.rows);
  }

  lemma RecoveryCompletes(k: Hash, sent: seq<Message>, p: Process, lo: nat)
    requires Canonical(sent) && InStep(k, sent, p) && !p.running && lo <= |p.mem.rows|
    ensures lo <= |sent| && Run(k, sent, p, Recovery(sent, lo, |sent|)) == Some(UpTo(k, sent, |sent|))
  {
    var n := Max(|p.mem.rows|, |sent|);
    assert n == |sent|;
    RecoveryConverges(k, sent, p, lo, |sent|);
  }

  /** So a restart recovers: whatever happened before, rebuilding from the table and streaming from
      its highest block, where the stream leaves out the first `lo` logs, puts all messages into
      tree and table. */
  lemma RestartRecovers(k: Hash, sent: seq<Message>, blocks: seq<nat>, p: Process, lo: nat)
    requires Canonical(sent) && InStep(k, sent, p) && !p.running
    requires InOrder(blocks) && |blocks| == |sent| && lo == LeftOut(blocks, LastBlock(blocks, p.mem.rows))
    ensures Run(k, sent, p, Recovery(sent, lo, |sent|)) == Some(UpTo(k, sent, |sent|))
  {
    RowsBeginInTime(k, sent, blocks, p);
    RecoveryCompletes(k, sent, p, lo);
  }

  // ----- what the executor's checks mean -----

  /** The break behind a false message that passes the check. */
  function CheckBreak(k: Hash, leaves: seq<Bytes>, m: Message, top: nat): Break
    requires HasBase(m) && 1 <= m.header.nonce <= |leaves|
  {
    var nonce: nat := m.header.nonce;
    ProofBreak(k, leaves[..nonce], 0, ToLeaf(k, m), nonce - 1, ProofAt(k, leaves, nonce - 1, nonce, top))
  }

  /** The check compares the message's leaf with the leaf at its nonce. */
  lemma InTreeIff(k: Hash, leaves: seq<Bytes>, m: Message, top: nat)
    requires All32(leaves) && HasBase(m) && 1 <= m.header.nonce <= |leaves| <= Shl(1, top)
    requires !Breaks(k, CheckBreak(k, leaves, m, top))
    ensures InTree(k, leaves, m, m.header.nonce, top) <==> ToLeaf(k, m) == leaves[m.header.nonce - 1]
  {
    var nonce: nat := m.header.nonce;
    Siblings32(k, leaves[..nonce], 0, nonce - 1, top);
    VerifiesIff(k, leaves, nonce, ToLeaf(k, m), nonce - 1, ProofAt(k, leaves, nonce - 1, nonce, top), top);
  }

  /** verifyMessageMerkleProof, in any reachable state, accepts exactly the message that was sent
      with that nonce, or a break is computed. */
  lemma VerifiedMessageWasSent(k: Hash, sent: seq<Message>, n: nat, m: Message, top: nat)
    requires Canonical(sent) && WellFormed(m) && 1 <= m.header.nonce <= n <= |sent|
    requires n <= Shl(1, top)
    requires !Breaks(k, CheckBreak(k, Leaves(k, sent[..n]), m, top))
    requires !Breaks(k, LeafBreak(k, m, sent[m.header.nonce - 1]))
    ensures InTree(k, Leaves(k, sent[..n]), m, m.header.nonce, top) <==> m == sent[m.header.nonce - 1]
  {
    InTreeIff(k, Leaves(k, sent[..n]), m, top);
    if m != sent[m.header.nonce - 1] && ToLeaf(k, m) == ToLeaf(k, sent[m.header.nonce - 1]) {
      LeafDeterminesMessage(k, m, sent[m.header.nonce - 1]);
    }
  }

  /** What was checked at the message's own nonce carries over to the proof that is submitted at
      the state's nonce. */
  lemma SubmittedProofVerifies(k: Hash, leaves: seq<Bytes>, m: Message, stateNonce: nat, top: nat)
    requires All32(leaves) && HasBase(m) && |leaves| <= Shl(1, top)
    requires 1 <= m.header.nonce <= stateNonce <= |leaves|
    requires InTree(k, leaves, m, m.header.nonce, top)
    ensures || Verifies(k, RootAt(k, leaves, stateNonce, top), ToLeaf(k, m), m.header.nonce - 1,
                        ProofAt(k, leaves, m.header.nonce - 1, stateNonce, top), top)
            || Breaks(k, CheckBreak(k, leaves, m, top))
  {
    if !Breaks(k, CheckBreak(k, leaves, m, top)) {
      InTreeIff(k, leaves, m, top);
      MerkleProofVerifies(k, leaves, m.header.nonce - 1, stateNonce, top);
    }
  }

  lemma {:induction false} PrefixLeaves(k: Hash, sent: seq<Message>, n: nat, count: nat)
    requires Canonical(sent) && count <= n <= |sent|
    ensures Leaves(k, sent[..n])[..count] == Leaves(k, sent)[..count]
    decreases |sent| - n
  {
    if n < |sent| {
      LeafAfter(k, sent, n);
      PrefixLeaves(k, sent, n + 1, count);
    } else {
      assert sent[..n] == sent;
    }
  }

  /** End to end: after any run of logs, failures and restarts, a message that passes the check
      is the one that was sent with its nonce, and the proof submitted for it at the state's nonce
      gives the root that the origin's own tree had at that nonce; or a break is computed. */
  lemma ExecutedMessage(
      k: Hash, sent: seq<Message>, run: seq<Event>, m: Message, stateNonce: nat, top: nat)
    requires Canonical(sent) && |sent| <= Shl(1, top) && WellFormed(m)
    requires Run(k, sent, START, run).Some?
    requires 1 <= m.header.nonce <= stateNonce <= |Run(k, sent, START, run).value.mem.leaves|
    requires InTree(k, Run(k, sent, START, run).value.mem.leaves, m, m.header.nonce, top)
    ensures stateNonce <= |sent|
    ensures var leaves := Run(k, sent, START, run).value.mem.leaves;
      || Breaks(k, CheckBreak(k, leaves, m, top))
      || Breaks(k, LeafBreak(k, m, sent[m.header.nonce - 1]))
      || (&& m == sent[m.header.nonce - 1]
          && Verifies(k, RootAt(k, Leaves(k, sent), stateNonce, top), ToLeaf(k, m), m.header.nonce - 1,
                      ProofAt(k, leaves, m.header.nonce - 1, stateNonce, top), top))
  {
    ReachableInStep(k, sent, run);
    var leaves := Run(k, sent, START, run).value.mem.leaves;
    CheckedMessage(k, sent, |leaves|, m, stateNonce, top);
  }

  lemma CheckedMessage(k: Hash, sent: seq<Message>, n: nat, m: Message, stateNonce: nat, top: nat)
    requires Canonical(sent) && |sent| <= Shl(1, top) && WellFormed(m)
    requires 1 <= m.header.nonce <= stateNonce <= n <= |sent|
    requires InTree(k, Leaves(k, sent[..n]), m, m.header.nonce, top)
    ensures var leaves := Leaves(k, sent[..n]);
      || Breaks(k, CheckBreak(k, leaves, m, top))
      || Breaks(k, LeafBreak(k, m, sent[m.header.nonce - 1]))
      || (&& m == sent[m.header.nonce - 1]
          && Verifies(k, RootAt(k, Leaves(k, sent), stateNonce, top), ToLeaf(k, m), m.header.nonce - 1,
                      ProofAt(k, leaves, m.header.nonce - 1, stateNonce, top), top))
  {
    var leaves := Leaves(k, sent[..n]);
    PrefixLeaves(k, sent, n, stateNonce);
    SubmittedProofVerifies(k, leaves, m, stateNonce, top);
    if !Breaks(k, CheckBreak(k, leaves, m, top)) && !Breaks(k, LeafBreak(k, m, sent[m.header.nonce - 1])) {
      VerifiedMessageWasSent(k, sent, n, m, top);
    }
  }
}
