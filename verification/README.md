# Verification of the messaging core

A Dafny model of the parts of this repository that carry its hardest promises, with proofs
that hold for every input, every interleaving or every run:

- **The historical Merkle tree** (`MerkleSpec`, `HistoricalTree`). The tree that Go keeps in a
  flat map from (height, x, count) to hashes, updated in place by `Insert`, is proved equal, at
  every height, coordinate and past count, to a zero-padded tree defined by plain recursion.
  Proofs taken from it verify, and whatever verifies is the leaf that was inserted.
- **What rests on the tree**: the snapshot tree with two leaves per state and the table that its
  proofs are kept in (`Snapshot`, `StateTable`, `ExecutorSnapshot`), the leaf of a message (`MessageLeaf`), and the executor that replays logs
  into a tree and a table, survives failures and restarts, and checks messages before it submits
  them (`Executor`).
- **The mutex per key** (`EntryProtocol`, `MapMutex`) as a system of interleaved steps with
  program counters, and **nonce allocation** (`NonceAllocator`), whose state contains that whole
  mutex.
- **The fixed-layout codecs** (`Encoder`, `MessageEncoder`), in both directions.
- **Smaller machines**: the log listener with crashes (`Listener`), the search for a header by
  time through an LRU cache (`HeaderSearch`), the byte trie on the heap (`ByteTrie`), gas pricing
  and repeated replacement (`GasPrice`, `ChainQueue`), the snapshots of Notary and Guard
  (`Agents`), and the chunk iterators (`Chunks`).

`Bytes`, `Numbers`, `Hashing` and `Wrappers` hold what these share. `dafny verify dfyconfig.toml` checks
everything.

## How hashing is treated

Keccak-256 is a parameter: every definition takes a function `k` from byte strings to 32 bytes, and
every theorem holds for each such function. No injectivity is assumed. Where a property needs it,
the theorem names, by a function of its own inputs (`ProofBreak`, `RootBreak`, `LeafBreak`,
`StateBreak`, `OriginBreak`, `CheckBreak`), the two different strings with one hash, or the string
whose hash is zero, that a counterexample would contain. (Zero matters because the parent of two
zero children is zero without hashing.)

## What came out differently than one may expect

- `BranchRoot` ignores the bits of an index above the height of the tree, so an index that is too
  large verifies as its low bits (`MerkleSpec.FoldLow`, `HistoricalTrees.VerifiedIsLeaf`).
- The executor's check of a state against a snapshot establishes the state's root and origin and
  nothing else; it is exactly as strong as that (`Snapshot.StateProofBindsRootAndOrigin`).
- `Execute` looks the state's metadata up twice, with different masks, and submits the proof of the
  second lookup without checking it. That proof verifies nevertheless, because every row of the
  table is that of a state of an accepted snapshot and a row accepts each state with its root and
  origin (`StateTable.LookupAccepts`, `Executor.ChainExecutor.Execute`). Two limits: a field of
  value zero is no condition of a lookup, so for a state of origin zero the row may be another
  origin's and not accept it (`StateTable.ZeroOriginMismatch`); and a state that is in several
  snapshots does not determine which of them the proof is for (`StateTable.SnapshotNotDetermined`).
- A contract call that fails, or signs again, after the transactor has signed leaves the chain's
  nonce lock held, because the deferred unlock is set up only after the call. Whoever holds the lock
  can still give it back exactly when that has not happened (`NonceAllocator.ReleasedIff`,
  `NonceAllocator.StuckIff`); it does happen (`NonceAllocator.CallFailureSticks`), and no later
  submission to that chain gets past it (`NonceAllocator.StuckForever`).
- `SubmitTransaction` only traces the error of `setGasPrice`. From a node that answers, the first
  price is within the configured maximum exactly when the node's suggestion and the configured
  minimum are (`GasPrice.FirstPriceIff`); from one that does not, the first fees are incomplete and
  unchecked (`GasPrice.FirstFees`). A transaction above the maximum can never be replaced
  (`GasPrice.OverpricedIsStuck`). Until its bump interval has elapsed it is sent again as it is. From
  then on, until it is mined, no pass sends it or anything behind it
  (`ChainQueue.OverpricedHoldsUp`); what is before it is held up exactly while it shares a batch
  with it (`ChainQueue.HeldUpIff`). The query hands over one transaction per chain, the lowest that is
  not marked, so nothing before an overpriced one is held up, and everything behind the lowest one
  waits, overpriced or not (`ChainQueue.HeldUpOneAtATime`).
- Replacing a transaction comes to an end exactly when bumping raises every price from the configured
  minimum to the maximum (`GasPrice.BumpsRunOutIff`). For a factor, with the product rounded down,
  that is exactly when the increase of the minimum is one unit or more before rounding
  (`GasPrice.FactorBumpsRunOutIff`); with a minimum of zero, a price of zero is replaced for ever. The
  source's factor is a double, which for 20 percent is just below 6 / 5, so it leaves a price of 5
  as it is (`GasPrice.TwentyPercentOfFive`).
- The listener may skip blocks in two ways. The block it stores is kept by chain alone, so a listener
  of another contract on the chain with the same store may put its own: after a crash this one begins
  there (`Listener.SharedStoreSkips`). And when the same object listens again, it jumps to a configured
  initial block above the stored one (`Listener.InitialBlockSkips`). No run misses anything exactly
  when the chain's entry in the store is not shared and is empty or not behind the initial block
  (`Listener.NeverMissesIff`). A shared store is harmless in a run in which no other listener gets
  ahead (`Listener.NothingMissed`).
- `HeaderByTime` without a start height, or with 0, is documented to search from genesis but begins
  at block 1. On the times [0, 100] and the target 0 it returns block 1, a hundred seconds off
  (`HeaderSearch.GenesisMissed`); it is right about the whole chain exactly when the target is not
  before block 1 or block 0 is no closer to it than block 1 (`HeaderSearch.FromGenesisIff`). From a
  start height above 1 it misses the closest block exactly for targets strictly between the last two
  blocks that are not closer to the lower one, which is the answer then
  (`HeaderSearch.ByTimeIsClosestIff`), because the loop compares a block number with the length of the
  range. The only start height that is right for every chain is 1
  (`HeaderSearch.SafeStarts`); among the blocks from 1 on, none and 0 are right too. From any start
  it returns a neighbour of the target.
- The tail of a snapshot proof proves `State.Hash()` one level up unless both sub-leaves are
  zero, that is, unless two preimages of zero are at hand; then it proves zero
  (`Snapshot.ProofsVerify`).

## Model

| member | source | states |
|---|---|---|
| MerkleSpec.NodeDependsOnRange | core/merkle/merkle.go:34-78 | an element of the full tree depends on the leaves below it and on no others |
| MerkleSpec.StageA | core/merkle/merkle.go:63-66 | before any leaf below it is inserted, an element is zero |
| MerkleSpec.StageC | core/merkle/merkle.go:71-73 | once all leaves below it are inserted, an element stays what it was then |
| MerkleSpec.ParentIs | core/merkle/merkle.go:247-257 | the parent of two children whose copies into 32 bytes are zero is the left one without hashing, and otherwise the hash of both |
| MerkleSpec.FoldLow | core/merkle/merkle.go:112-121 | folding a proof looks at no more bits of the index than the proof has elements |
| MerkleSpec.ProofComplete | core/merkle/merkle.go:107-122 | the siblings of any element, from any level to any higher one, fold to the element above |
| MerkleSpec.ParentBinding | core/merkle/merkle.go:247-257 | two different pairs of children with one parent give a collision or a preimage of zero |
| MerkleSpec.ProofSound | core/merkle/merkle.go:107-131 | a proof that folds to the tree's own element is the tree's own proof of the tree's own leaf, or a computed break of the hash |
| MerkleSpec.RootBinding | core/merkle/merkle.go:177-183 | trees with one root have the same leaves, or a break is found by descending to the difference |
| HistoricalTrees.NoOverflow | core/merkle/merkle.go:226-229 | 64-bit shifts do not overflow for elements of a tree of height below 64 |
| HistoricalTrees.FetchIsNode | core/merkle/merkle.go:226-244 | the three-stage lookup returns the recursive tree's element wherever the one key it needs was saved |
| HistoricalTrees.FetchBesidePath | core/merkle/merkle.go:141-146 | in the middle of an insertion, both the fresh ancestor and its untouched sibling are looked up right |
| HistoricalTrees.LeafSaved | core/merkle/merkle.go:135-138 | saving a new leaf keeps the history of all earlier counts |
| HistoricalTrees.ChildFetched | core/merkle/merkle.go:141-146 | both children of the leaf's ancestor are looked up right before the ancestor is saved |
| HistoricalTrees.LevelSaved | core/merkle/merkle.go:139-148 | one round of the climb saves what the level should hold and keeps everything saved before |
| HistoricalTrees.HistoryExtends | core/merkle/merkle.go:134-150 | the saved path of the last leaf is all that the history lacked for the new count |
| HistoricalTrees.PastUnchanged | core/merkle/merkle.go:44-78 | inserting more leaves never changes an answer about an earlier count |
| HistoricalTrees.HistoricalTree.constructor | core/merkle/merkle.go:88-95 | an empty tree satisfies the invariant |
| HistoricalTrees.HistoricalTree.GenerateZeroHashes | core/merkle/merkle.go:210-221 | every zero hash is 32 zero bytes, the element of an empty tree at its height |
| HistoricalTrees.HistoricalTree.NewTreeFromItems | core/merkle/merkle.go:98-104 | holds exactly the items, in order |
| HistoricalTrees.HistoricalTree.Insert | core/merkle/merkle.go:134-150 | appends one leaf and keeps the full history, for every tree with room |
| HistoricalTrees.HistoricalTree.SaveParent | core/merkle/merkle.go:139-148 | the loop body brings the saved path one level higher |
| HistoricalTrees.HistoricalTree.FetchCorrect | core/merkle/merkle.go:226-244 | every element of every past tree is read back as the recursive tree's element over the first `count` leaves |
| HistoricalTrees.HistoricalTree.Items | core/merkle/merkle.go:152-159 | returns all leaves ever inserted, in order |
| HistoricalTrees.HistoricalTree.Item | core/merkle/merkle.go:167-173 | the leaf, or an error exactly past the end |
| HistoricalTrees.HistoricalTree.Root | core/merkle/merkle.go:177-183 | the recursive root over the first `count` leaves, or an error exactly when `count` is too large |
| HistoricalTrees.HistoricalTree.MerkleProof | core/merkle/merkle.go:190-207 | the recursive tree's siblings at that count, or an error exactly unless index < count <= inserted |
| HistoricalTrees.BranchRoot | core/merkle/merkle.go:107-122 | folds the proof, or an error exactly for a proof of the wrong length |
| HistoricalTrees.VerifyMerkleProof | core/merkle/merkle.go:125-131 | true exactly when the proof has the right length and folds to the root |
| HistoricalTrees.MerkleProofVerifies | core/merkle/merkle.go:107-207 | every leaf verifies against every root from its insertion on, with the proof of that time |
| HistoricalTrees.VerifiedIsLeaf | core/merkle/merkle.go:107-131 | what verifies is the leaf at the index's low bits (zero past the count) with the tree's own proof, or a computed break |
| HistoricalTrees.VerifiesIff | core/merkle/merkle.go:107-131 | verifying is equivalent to being the leaf with its own proof, for an index inside the tree |
| HistoricalTrees.RootsOfDifferentTimes | core/merkle/merkle.go:175-183 | roots before and after a non-zero leaf differ, or a computed break |
| HistoricalTrees.EvenLeafProof | agents/types/snapshot.go:55-67 | the proof of an even leaf begins with its neighbour and goes on with a proof of their parent one level lower |
| Snapshot.SnapshotRootAndProofs | agents/types/snapshot.go:40-70 | an error exactly when a state does not encode; otherwise the root over the pairs of sub-leaves, each state's proof at its own position, and an empty second half |
| Snapshot.StateProofs | agents/types/snapshot.go:55-67 | the loop over even indices leaves state i's proof at i |
| Snapshot.ProofsVerify | agents/types/snapshot.go:40-70 | for any states that the tree has room for, each proof verifies the left sub-leaf at 2i, begins with the right sub-leaf, and its tail proves the state's hash at i, or zero if both sub-leaf strings are preimages of zero |
| Snapshot.LeavesFit | core/merkle/merkle.go:84-85 | exactly up to 32 states have room in a snapshot's tree |
| Snapshot.LeftIsRootAndOrigin | agents/types/state.go:102-111 | left sub-leaf bytes agree exactly when root and origin do |
| Snapshot.RightIsTheRest | agents/types/state.go:102-111 | the right sub-leaf hashes 26 bytes, which agree exactly when nonce, block number, timestamp and gas data do |
| Snapshot.StateHashIs | agents/types/state.go:91-111 | both sub-leaves and the hash of a state in terms of its fields |
| Snapshot.StateProofBindsRootAndOrigin | agents/agents/executor/executor.go:490-532 | a state passes against a snapshot exactly when root and origin are those of the state at that index and the proof is the snapshot's own, up to a computed break |
| MessageLeaf.HeaderLeaf | agents/types/header.go:81-103 | the array filled by the two loops is the encoded header right-aligned in 32 zero bytes |
| MessageLeaf.PaddedHeaderLayout | agents/types/header.go:87-97 | the first 15 bytes are zero and the last 17 decode to the header |
| MessageLeaf.BaseBodyIs | agents/types/base_message.go:83-90 | the body that is hashed is sender, recipient, request and content, without the tips |
| MessageLeaf.LeafParts | agents/types/message.go:119-141 | header and content, and in a base message tips and body, each prove the leaf on their own side |
| MessageLeaf.BaseBinding | agents/types/base_message.go:83-106 | equal base leaves of differently encoded base messages give a computed collision |
| MessageLeaf.LeafBinding | agents/types/message.go:119-141 | messages of any flags with equal leaves have equal encodings, or a computed collision |
| MessageLeaf.LeafDeterminesMessage | agents/types/message.go:119-141 | for well-formed messages the leaf determines the message, or a computed collision |
| MessageLeaf.StoredLeaf | agents/agents/executor/db/sql/base/message.go:84-89 | a message decoded from its stored encoding has the leaf it had before |
| Encoder.GasDataRoundTrip | agents/types/encoder.go:29-76 | decoding undoes encoding |
| Encoder.GasDataBytes | agents/types/encoder.go:29-76 | encoding undoes decoding of every 12 bytes |
| Encoder.GasDataLayout | agents/types/gas_data.go:3-11 | each field is the big-endian number at its offset |
| Encoder.DecodeGasData | agents/types/encoder.go:56-76 | succeeds exactly for 12 bytes |
| Encoder.ChainGasRoundTrip | agents/types/encoder.go:79-112 | decoding undoes encoding |
| Encoder.ChainGasBytes | agents/types/encoder.go:79-112 | encoding undoes decoding of every 16 bytes |
| Encoder.ChainGasLayout | agents/types/chain_gas.go:5-9 | the domain is the big-endian number at offset 0, the gas data is at 4 |
| Encoder.PaddedLength | agents/types/encoder.go:127-137 | padding gives the wanted length exactly when the number fits |
| Encoder.PaddedRoundTrip | agents/types/encoder.go:127-137 | and keeps the value of every number, fitting or not |
| Encoder.EncodeStateOk | agents/types/encoder.go:115-149 | a state encodes exactly when block number and timestamp are below 2^40 |
| Encoder.DecodeState | agents/types/encoder.go:151-179 | succeeds exactly for 62 bytes |
| Encoder.StateRoundTrip | agents/types/encoder.go:115-179 | decoding undoes encoding of every state in range |
| Encoder.StateBytes | agents/types/encoder.go:115-179 | every 62 bytes decode to a state in range that encodes to them |
| Encoder.StateLayout | agents/types/state.go:12-20 | each field is at its offset, numbers big-endian |
| Encoder.EncodeSnapshot | agents/types/encoder.go:182-200 | an error for no states or one that does not encode, otherwise the encodings one after the other |
| Encoder.DecodeSnapshot | agents/types/encoder.go:203-221 | an error exactly for a length that is no multiple of 62, otherwise the states in order |
| Encoder.StatesBytesOk | agents/types/encoder.go:187-197 | the encodings exist exactly when all states are in range |
| Encoder.StatesRoundTrip | agents/types/encoder.go:182-221 | decoding undoes encoding of any list of states in range |
| Encoder.StatesInBytes | agents/types/encoder.go:182-221 | encoding undoes decoding of any whole number of records |
| Encoder.AttestationRoundTrip | agents/types/encoder.go:224-275 | encodes exactly below 2^40, and then decoding undoes it |
| Encoder.AttestationBytes | agents/types/encoder.go:224-275 | encoding undoes decoding of every 78 bytes |
| Encoder.AttestationLayout | agents/types/attestation.go:12-19 | each field is at its offset, numbers big-endian |
| Encoder.ReceiptRoundTrip | agents/types/encoder.go:567-619 | decoding undoes encoding |
| Encoder.ReceiptBytes | agents/types/encoder.go:567-619 | encoding undoes decoding of every 133 bytes |
| Encoder.ReceiptLayout | agents/types/receipt.go:10-20 | each field is at its offset, numbers big-endian |
| Bytes.FirstByteWeighs | agents/types/encoder.go:38-43 | big-endian: the first byte weighs most |
| MessageEncoder.HeaderRoundTrip | agents/types/encoder.go:353-392 | decoding undoes encoding, whatever bytes follow |
| MessageEncoder.HeaderBytes | agents/types/encoder.go:353-392 | encoding undoes decoding of the first 17 bytes |
| MessageEncoder.HeaderLayout | agents/types/encoder.go:344-371 | flag, origin, nonce, destination and optimistic seconds at 0, 1, 5, 9 and 13, big-endian |
| MessageEncoder.TipsRoundTrip | agents/types/encoder.go:308-342 | decoding undoes encoding exactly when all four tips are below 2^64 |
| MessageEncoder.TipsBytes | agents/types/encoder.go:308-342 | encoding undoes decoding of every 32 bytes |
| MessageEncoder.TipsLayout | agents/types/encoder.go:308-342 | summit, attestation, execution and delivery tip at 0, 8, 16 and 24, low 64 bits, big-endian |
| MessageEncoder.RequestLength | agents/types/encoder.go:395-409 | the encoding has its fixed size exactly when the gas drop is below 2^96 |
| MessageEncoder.RequestRoundTrip | agents/types/encoder.go:395-419 | decoding undoes encoding of a request in range |
| MessageEncoder.RequestBytes | agents/types/encoder.go:395-419 | encoding undoes decoding of every 24 bytes |
| MessageEncoder.RequestLayout | agents/types/request.go:7-16 | version, gas limit and gas drop at 0, 4 and 12, big-endian |
| MessageEncoder.BaseMessageRoundTrip | agents/types/encoder.go:421-471 | decoding undoes encoding of a base message in range |
| MessageEncoder.BaseMessageBytes | agents/types/encoder.go:421-471 | encoding undoes decoding of every long enough byte string |
| MessageEncoder.BaseMessageLayout | agents/types/base_message.go:9-20 | tips, sender, recipient, request and content at their offsets |
| MessageEncoder.NewMessageFromBaseMessage | agents/types/message.go:50-65 | succeeds exactly for the base flag, and then the message is well-formed |
| MessageEncoder.NewMessageFromManagerMessage | agents/types/message.go:68-79 | succeeds exactly for the manager flag, and then the message is well-formed |
| MessageEncoder.MessageRoundTrip | agents/types/encoder.go:474-531 | decoding undoes encoding of every well-formed message |
| MessageEncoder.MessageBytes | agents/types/encoder.go:474-531 | fails exactly for a base message that is too short; encoding undoes every decoding that succeeds |
| MessageEncoder.MessageLayout | agents/types/encoder.go:474-496 | the header first, then the base message or the body |
| MessageEncoder.EncodeMessageInjective | agents/types/encoder.go:474-496 | different well-formed messages have different encodings |
| Executor.MessageStore.StoreMessage | agents/agents/executor/db/sql/base/message.go:16-35 | inserts in nonce order unless the key exists; an error may or may not have stored the row |
| Executor.InsertRowElements | agents/agents/executor/db/sql/base/message.go:22-29 | exactly a row whose destination and nonce are not there yet is added, and nothing else changes |
| Executor.InsertRowSorted | agents/agents/executor/db/sql/base/message.go:102-108 | the order of the nonces is kept |
| Executor.MessageStore.GetMessages | agents/agents/executor/db/sql/base/message.go:93-124 | the decoded page in nonce order, or an error when a row does not decode |
| Executor.ReadAllPages | agents/agents/executor/executor.go:613-631 | for every page size the pages make up the whole table, nothing twice and nothing left out |
| Executor.NewTreeFromDB | agents/agents/executor/executor.go:612-647 | fails exactly when a row does not decode, otherwise a tree over the leaves of all rows |
| Executor.ChainExecutor.ProcessMessage | agents/agents/executor/executor_utils.go:128-152 | inserts and stores the next nonce, skips an older one, refuses a later one; a failed store leaves the leaf inserted |
| Executor.ChainExecutor.ReceiveLogs | agents/agents/executor/executor.go:790-808 | processes logs in order and stops at the first error |
| Executor.LogKeepsStep | agents/agents/executor/executor_utils.go:128-152 | any log with any outcome of the store keeps tree and table in step |
| Executor.RestartInStep | agents/agents/executor/executor.go:612-647 | rebuilding after a stop is always possible and puts tree and table in step |
| Executor.RunInStep | agents/agents/executor/executor.go:790-808 | from any state in step, every run ends in step |
| Executor.ReachableInStep | agents/agents/executor/executor_utils.go:128-152 | after any run of duplicates, gaps, replays, store failures, crashes and restarts the tree holds messages 1..n in order and the table 1..n, or 1..n-1 once stopped |
| Executor.RecoveryConverges | agents/agents/executor/executor.go:612-647 | restarting and replaying logs from no later than the first missing row leads to all of them in tree and table |
| Executor.StreamBeginsInTime | agents/agents/executor/db/sql/base/message.go:142-181 | a stream from the highest stored block begins no later than the first missing row |
| Executor.LastBlockIsHighest | agents/agents/executor/db/sql/base/message.go:151-155 | the stream begins at the highest block of the table, at 0 for an empty one |
| Executor.StreamedIff | agents/agents/executor/executor.go:699-706 | exactly the logs from that block on are streamed |
| Executor.RestartRecovers | agents/agents/executor/executor.go:689-709 | so rebuilding from the table and streaming from its highest block puts every message into tree and table |
| Executor.ChainExecutor.VerifyMessageMerkleProof | agents/agents/executor/executor.go:449-487 | an error exactly for a nonce outside the tree, otherwise whether the message's leaf verifies at its own nonce |
| Executor.ChainExecutor.VerifyLeaf | agents/agents/executor/executor.go:449-487 | the same for any leaf |
| Executor.VerifyStateMerkleProof | agents/agents/executor/executor.go:490-532 | true only if a row with the state's root and origin accepts it; with a table of stored states exactly when there is such a row |
| Executor.ChainExecutor.Execute | agents/agents/executor/executor.go:324-446 | exactly when a message is submitted and when an error is returned, which proofs go out, and that the submitted snapshot proof verifies although only the checked one was looked at |
| Executor.ChainExecutor.SubmitWithState | agents/agents/executor/executor.go:380-445 | the check of the state and the two lookups |
| Executor.NewChainExecutor | agents/agents/executor/executor.go:219-241 | a restart makes of the table exactly what the Restart event of a run does |
| Executor.ReceiveIsRun | agents/agents/executor/executor.go:790-808 | the loop over logs is a run of their events and stops as the run does |
| Executor.ReceiveInStep | agents/agents/executor/executor.go:790-808 | the loop over any sent logs keeps tree and table in step |
| Executor.LogOutcome | agents/agents/executor/executor_utils.go:135-149 | one log exactly: an older one changes nothing, the next one is added, a later one is an error and changes nothing |
| Executor.ReceiveSucceedsIff | agents/agents/executor/executor.go:790-808 | with a store that works the loop succeeds exactly if no log is missing before another one, and then tree and table hold everything up to the highest nonce |
| Executor.InTreeIff | agents/agents/executor/executor.go:449-487 | the check accepts exactly the leaf at the message's nonce, up to a computed break |
| Executor.VerifiedMessageWasSent | agents/agents/executor/executor.go:449-487 | the check accepts exactly the message that was sent with that nonce, up to a computed break |
| Executor.SubmittedProofVerifies | agents/agents/executor/executor.go:347-378 | what passed at its own nonce also verifies with the proof taken at any later state nonce |
| Executor.ExecutedMessage | agents/agents/executor/executor.go:324-446 | after any run, a message that passes is the one sent, and the submitted proof gives the root of the origin's own tree at the state's nonce, up to a computed break |
| ExecutorSnapshot.ProcessSnapshot | agents/agents/executor/executor_utils.go:155-197 | stores every state with root, its own proof and index exactly when all are valid, whatever the write does; the first bad state decides between error and silence; the table never holds anything but stored states |
| ExecutorSnapshot.RowsStayGenuine | agents/agents/executor/executor_utils.go:186-194 | storing an accepted snapshot keeps every row of the table that of a state of an accepted snapshot |
| ExecutorSnapshot.StoredIsFound | agents/agents/executor/executor_utils.go:186-194 | every state of a stored snapshot is found by the lookup for its submission |
| ExecutorSnapshot.NewSnapshotIsStored | agents/agents/executor/db/sql/base/state.go:38-63 | the first snapshot of its root is stored row by row |
| ExecutorSnapshot.StoredStateVerifies | agents/agents/executor/executor.go:490-532 | the row stored for a state passes the later check of that state |
| StateTable.StateStore.StoreStates | agents/agents/executor/db/sql/base/state.go:38-63 | adds the rows whose keys are new; an error may or may not have stored them |
| StateTable.InsertedKeys | agents/agents/executor/db/sql/base/state.go:49-56 | after storing, each key is in the table, with the new row if the key was not there |
| StateTable.InsertedRows | agents/agents/executor/db/sql/base/state.go:49-56 | old rows stay as they were, and nothing else gets in |
| StateTable.KeysStayUnique | agents/agents/executor/db/sql/base/model.go:98-106 | no key comes twice |
| StateTable.StateStore.GetStateMetadata | agents/agents/executor/db/sql/base/state.go:105-127 | any matching row, none exactly when none matches |
| StateTable.FoundIs | agents/agents/executor/db/sql/base/state.go:105-127 | for non-zero fields a lookup finds exactly the rows with the state's root and origin, and nonce where asked |
| StateTable.RowAccepts | agents/agents/executor/executor.go:518-531 | a row accepts every state with the root and origin of its own |
| StateTable.RowAcceptsOnly | agents/agents/executor/executor.go:518-531 | and exactly those, up to a computed break |
| StateTable.LookupAccepts | agents/agents/executor/executor.go:389-406 | whatever a lookup by root and non-zero origin returns accepts the state, with or without the nonce |
| StateTable.SubmissionVerifies | agents/agents/executor/executor.go:399-440 | the submitted proof with its one-byte index verifies for a snapshot of the table |
| StateTable.ZeroOriginMismatch | agents/agents/executor/db/sql/base/state.go:108-113 | a state of origin zero may be given the row of another origin, which does not accept it, up to a computed break |
| StateTable.SnapshotNotDetermined | agents/agents/executor/executor.go:389-399 | rows of two snapshots with different roots match the lookup of one state |
| EntryProtocol.CountKept | core/mapmutex/mapmutex.go:47-105 | every action keeps the reference count equal to the number of counted sessions |
| EntryProtocol.UsersKept | core/mapmutex/mapmutex.go:86-105 | nobody's entry is removed from the map or replaced in it while they are counted |
| EntryProtocol.MapHasUsersKept | core/mapmutex/mapmutex.go:66-105 | the map keeps no entry without users |
| EntryProtocol.OwnerKept | core/mapmutex/mapmutex.go:59-83 | an entry's mutex keeps one owner, who knows it |
| EntryProtocol.ActionInv | core/mapmutex/mapmutex.go:47-105 | every action of any session keeps the whole invariant |
| MapMutex.StepSimulates | core/mapmutex/mapmutex.go:47-105 | every single statement of Lock, TryLock and Unlock is an action of the protocol |
| MapMutex.FactsHold | core/mapmutex/mapmutex.go:86-95 | a created entry is free, and Unlock finds the very entry it was called on |
| MapMutex.RunInv | core/mapmutex/mapmutex.go:47-105 | the invariant holds after every interleaving of any number of sessions |
| MapMutex.MutualExclusion | core/mapmutex/mapmutex.go:44-62 | at most one session per key is between a returned lock and its Unlock, even while entries are deleted and created again |
| MapMutex.NeverPanics | core/mapmutex/mapmutex.go:91-95 | the panic of Unlock is unreachable |
| MapMutex.HandedOver | core/mapmutex/mapmutex.go:44-83 | a session is in Unlock, or has finished with success, exactly when its caller has had the lock earlier in the run |
| MapMutex.FollowsCall | core/mapmutex/mapmutex.go:47-83 | a session takes the path of the call it was begun with: Lock never gives up, TryLock never waits |
| MapMutex.FinishedCall | core/mapmutex/mapmutex.go:44-83 | a finished Lock has handed its lock over, and a finished TryLock returned true exactly if it has |
| MapMutex.TryLockSucceeds | core/mapmutex/mapmutex.go:64-83 | on a free key TryLock gets the lock |
| MapMutex.CountIsUsers | core/mapmutex/mapmutex.go:23-32 | whenever the map's mutex is free, an entry's count is the number of sessions waiting for it or holding it, and it is in the map exactly when there is one |
| MapMutex.EmptyAtEnd | core/mapmutex/mapmutex.go:96-100 | when all sessions have finished the map is empty |
| MapMutex.TryLockRefused | core/mapmutex/mapmutex.go:66-83 | TryLock fails while a session holds the key |
| MapMutex.TryLockFailsForCause | core/mapmutex/mapmutex.go:66-83 | TryLock fails only because a session of the same key holds the entry's mutex |
| MapMutex.NoDeadlock | core/mapmutex/mapmutex.go:47-105 | when no client sits in a critical section, some unfinished session can move |
| MapMutex.UnlockEnabled | core/mapmutex/mapmutex.go:86-105 | once in Unlock a session waits for nothing but the map's mutex |
| MapMutex.StepsRunOut | core/mapmutex/mapmutex.go:47-105 | each step brings its session closer to its end and leaves all others alone |
| MapMutex.RefinesLockPerKey | core/mapmutex/mapmutex.go:34-37 | seen from outside the system is one plain lock per key |
| NonceAllocator.AllocationExtends | ethergo/submitter/submitter.go:205-214 | the larger of on-chain nonce and highest stored nonce plus one extends a well-allocated list |
| NonceAllocator.RunInv | ethergo/submitter/submitter.go:255-338 | over all interleavings with the mutex, what a lock holder has read is still true when it stores |
| NonceAllocator.NoncesWellAllocated | ethergo/submitter/submitter.go:297-337 | on each chain stored nonces strictly increase, none is below the on-chain nonce that was read, and none in between is missing |
| NonceAllocator.NoGaps | ethergo/submitter/submitter.go:162-215 | stored nonces are distinct, and each smaller number was stored before or already used on chain |
| NonceAllocator.TxsAreAllocated | ethergo/submitter/submitter.go:297-337 | the stored transactions of a chain are those of its Store events in the run, one each, with the nonce that was read and the nonce it gave |
| NonceAllocator.OnChainIsMined | ethergo/submitter/submitter.go:182-188 | the nonce read from the chain is the one it moved to last |
| NonceAllocator.CanStore | ethergo/submitter/submitter.go:297-337 | a submission that has just got the lock can go through to its transaction |
| NonceAllocator.StuckForever | ethergo/submitter/submitter.go:322-326 | a call that fails after signing keeps the lock in every continuation, and the chain's stored nonces stand still |
| NonceAllocator.StuckIff | ethergo/submitter/submitter.go:322-326 | a submission gets stuck exactly when its call has failed or signed again after signing |
| NonceAllocator.ReleasedIff | ethergo/submitter/submitter.go:297-326 | in every reachable state a holder can come to the end of its Unlock exactly when its call has not gone wrong |
| NonceAllocator.CanRelease | ethergo/submitter/submitter.go:297-337 | the steps by which it does so, whatever the other sessions are in the middle of |
| NonceAllocator.CallFailureSticks | ethergo/submitter/submitter.go:297-325 | a concrete run up to the signature and the failing call, after which the chain's lock is held for good |
| Listener.ChainListener.GetMetadata | ethergo/listener/listener.go:170-206 | starts at the stored block if that is above the object's own start block, at the initial block otherwise |
| Listener.ChainListener.DoPoll | ethergo/listener/listener.go:106-168 | one poll for every outcome of the node, the handler and the store |
| Listener.PollKeeps | ethergo/listener/listener.go:106-168 | no outcome of a poll opens a gap, lagging heads included |
| Listener.NothingMissed | ethergo/listener/listener.go:77-168 | after any run of polls, errors, cancellations and crashes every log from the first start up to the start block was handled, if the initial block is not above the stored one and no other listener on the chain's entry of the store gets ahead |
| Listener.NeverMissesIff | ethergo/listener/listener.go:200-204 | no run misses anything exactly when the chain's entry in the store is not shared and is empty or not behind the initial block |
| Listener.SharedStoreSkips | ethergo/listener/db/store.go:27-55 | with another listener on the chain's entry, a run of one failed poll, its put and a crash misses a log, whatever was stored and wherever the listener began |
| Listener.OtherPutIsPoll | ethergo/listener/listener.go:159-163 | that put is what one successful poll of the other listener does |
| Listener.InitialBlockSkips | ethergo/listener/listener.go:200-204 | otherwise a run of three events misses a log |
| Listener.RangeOfPoll | ethergo/listener/listener.go:128-166 | a range has at most 2001 blocks, the next one starts at its end, and a successful poll more than 2000 behind advances by 2000 |
| Listener.PollOutcome | ethergo/listener/listener.go:121-166 | exactly when a poll fails, what has been handled and stored then, and that it does not move on |
| Listener.FilterConcat | ethergo/listener/listener.go:146-150 | logs are handled in the order of the chain, each as often as it is there |
| Listener.FailedListenForgets | ethergo/listener/listener.go:77-81 | after a Listen that failed the next one begins as a new object would |
| Listener.CatchesUp | ethergo/listener/listener.go:130-139 | n successful polls reach the head or advance 2000n blocks |
| HeaderSearch.HeaderCache.HeaderByNumber | ethergo/chain/block.go:194-224 | a cached or fetched header is the chain's own; a cached one needs no node |
| HeaderSearch.HeaderCache.Add | ethergo/chain/block.go:216-223 | the cache becomes the one with the header in front, within its size, without duplicates, and true to the chain |
| HeaderSearch.TouchedIs | ethergo/chain/block.go:176-191 | the header comes to the front, all others stay unless the cache was full of others; then the last one goes |
| HeaderSearch.HeaderByTime | ethergo/chain/block.go:23-98 | the answer is that of the search without a cache, always there if the node answers, within the counted rounds |
| HeaderSearch.SearchLoop | ethergo/chain/block.go:45-97 | the loop agrees with the recursive search round by round |
| HeaderSearch.RoundsLogarithmic | ethergo/chain/block.go:50-89 | the rounds are logarithmic in the width of the range |
| HeaderSearch.SearchEndsInside | ethergo/chain/block.go:50-89 | up to block head - start + 1 the loop always returns from inside |
| HeaderSearch.ByTimeIsClosest | ethergo/chain/block.go:23-109 | among the blocks from the start block on (1 for nil and 0) the answer is a closest one, the later of a tie, and the loop ends inside; from starts above 1 only up to block head - start + 1 |
| HeaderSearch.ByTimeIsClosestIff | ethergo/chain/block.go:45-97 | exactly when the answer is a closest block from the start on: always from 1; from above 1 unless the target is strictly between the last two blocks and not closer to the lower one |
| HeaderSearch.SearchInLastGap | ethergo/chain/block.go:84-97 | there the loop runs its bounds together and the lower block is the answer |
| HeaderSearch.FromGenesisIff | ethergo/chain/block.go:16-23 | measured by the whole chain, a search without a start height is right exactly when the target is not before block 1 or block 0 is not closer |
| HeaderSearch.GenesisMissed | ethergo/chain/block.go:111-117 | on the times [0, 100] and target 0 it returns block 1 |
| HeaderSearch.EndsAndHits | ethergo/chain/block.go:37-60 | the end blocks are the answer outside the range and at its ends, and a first middle of the target's time is |
| HeaderSearch.ByTimeIsNeighbour | ethergo/chain/block.go:23-98 | from any start the answer is one of the two blocks around the target |
| HeaderSearch.HighStartMissesClosest | ethergo/chain/block.go:84 | each start above 1 misses the closest block of some chain |
| HeaderSearch.SafeStarts | ethergo/chain/block.go:16-23 | the only start height right for every chain is 1 by what is documented to be searched; nil and 0 are right only about the blocks from 1 on |
| ByteTrie.ByteSliceMap.New | core/bytemap/bytemap.go:6-9 | an empty trie is the map of the empty key to the zero value |
| ByteTrie.ByteSliceMap.PutByte | core/bytemap/bytemap.go:25-36 | finds or makes the child and changes nothing else in the whole trie |
| ByteTrie.ByteSliceMap.Put | core/bytemap/bytemap.go:17-23 | from any node the whole trie changes as the map does, and the node returned is the one at the end |
| ByteTrie.ByteSliceMap.Get | core/bytemap/bytemap.go:39-47 | found exactly when the path is in the map, with its value, the zero value otherwise |
| ByteTrie.PutAtLookup | core/bytemap/bytemap.go:17-36 | a put adds the prefixes of its key and changes the value at its key alone |
| ByteTrie.PutTwice | core/bytemap/bytemap.go:17-23 | putting b through the node that Put(a) returned is putting a + b |
| ByteTrie.PutAllLookup | core/bytemap/bytemap.go:38-47 | after any puts a key is found exactly when empty or a prefix of one that was put, with the last value put at exactly that key |
| GasPrice.Transactor.BumpGasFromPrevTx | ethergo/submitter/submitter.go:393-426 | bumps fields by type of chain and of the previous transaction |
| GasPrice.Transactor.ApplyGasFromOracle | ethergo/submitter/submitter.go:460-496 | raises to the node's suggestion; an error in the middle leaves what was set before it |
| GasPrice.Transactor.ApplyGasFloor | ethergo/submitter/submitter.go:433-456 | raises missing and low values to their minima |
| GasPrice.Transactor.ApplyGasCeil | ethergo/submitter/submitter.go:500-524 | refuses above the maximum and clips the tip |
| GasPrice.Transactor.SetPrice | ethergo/submitter/submitter.go:353-385 | the four stages in order, stopping at the first error |
| GasPrice.PriceIs | ethergo/submitter/submitter.go:353-385 | the accepted cap is the largest of bumped price, suggestion and minimum, and so is the tip, clipped to the cap |
| GasPrice.AcceptedPrice | ethergo/submitter/submitter.go:353-385 | an accepted price is between minimum and maximum, and its tip is at most its fee cap |
| GasPrice.ReplacementPaysMore | ethergo/submitter/submitter.go:410-425 | in spite of the clipping both fee cap and tip are at least the bumped previous ones, if the previous tip was at most its cap |
| GasPrice.RefusedIff | ethergo/submitter/submitter.go:498-524 | with a node that answers, pricing fails exactly when bumped price, suggestion or minimum is above the maximum |
| GasPrice.FirstFees | ethergo/submitter/submitter.go:289-292 | the first fees are complete exactly when the node answers, and what they are in the failing cases |
| GasPrice.FirstPriceIff | ethergo/submitter/submitter.go:289-292 | from a node that answers, the first price is within the maximum exactly when suggestion and minimum are |
| GasPrice.OverpricedIsStuck | ethergo/submitter/submitter.go:289-292 | a transaction that went out above the maximum can never be bumped |
| GasPrice.BumpStep | ethergo/submitter/chain_queue.go:152-229 | a replacement keeps the payload, takes the new gas estimate, is acceptable, and pays at least the bumped prices |
| GasPrice.BumpedIff | ethergo/submitter/chain_queue.go:152-229 | a transaction stays as it is until its interval has elapsed, and can then be bumped exactly if estimate, node and signer work and the price is not above the maximum |
| GasPrice.BumpsAddUp | ethergo/submitter/chain_queue.go:152-229 | over any passes over one transaction nonce, receiver, value and data never change and prices are at least the originals bumped once per replacement |
| GasPrice.BumpsRunOut | ethergo/submitter/chain_queue.go:184-187 | if bumping raises every price from minimum to maximum, n replacements have cost n - 1 units above the minimum, so they come to an end |
| GasPrice.ReplacedForever | ethergo/submitter/chain_queue.go:184-187 | a price in the range that bumping leaves as it is gets replaced in every pass |
| GasPrice.BumpsRunOutIff | ethergo/submitter/chain_queue.go:184-187 | the number of replacements is bounded exactly when bumping raises every price from minimum to maximum |
| GasPrice.FactorBumpsRunOutIff | ethergo/chain/gas/cmp.go:107-116 | with a product rounded down, replacing ends exactly when the increase of the configured minimum is one unit or more before rounding |
| GasPrice.FactorBumpRaises | ethergo/chain/gas/cmp.go:107-116 | a rounded product with a factor of at least one is a bump, and raises all prices from a least one exactly when it raises that one |
| GasPrice.TwentyPercentOfFive | ethergo/chain/gas/cmp.go:113-114 | the double for 20 percent leaves a price of 5 as it is |
| ChainQueue.ChainPendingQueue | ethergo/submitter/chain_queue.go:49-114 | whatever order the goroutines finish in, the same transactions are sent in nonce order, or none |
| ChainQueue.RunAll | ethergo/submitter/chain_queue.go:84-99 | in any order of finishing, exactly the results of the pending transactions are gathered, and an error is seen exactly when one failed |
| ChainQueue.SortByNonce | ethergo/submitter/chain_queue.go:101-103 | nonces in order, same transactions |
| ChainQueue.QueueElements | ethergo/submitter/chain_queue.go:84-103 | the queue holds exactly the results for transactions not yet mined, in nonce order |
| ChainQueue.QueueFails | ethergo/submitter/chain_queue.go:96-99 | the pass fails exactly when one pending transaction cannot be bumped |
| ChainQueue.OneBlocksAll | ethergo/submitter/chain_queue.go:153-187 | a transaction above the ceiling is sent again until its interval has elapsed, and then keeps its whole batch from being sent |
| ChainQueue.OrderedUnique | ethergo/submitter/chain_queue.go:101-103 | nonce order and contents fix the queue |
| ChainQueue.SentIsStored | ethergo/submitter/chain_queue.go:96-149 | what a successful pass sends is what it stores, of the transactions not yet mined |
| ChainQueue.RunKeepsOrder | ethergo/submitter/chain_queue.go:79-82 | over any run of passes and new submissions transactions stay one per nonce and in order |
| ChainQueue.RunIsBumpAll | ethergo/submitter/chain_queue.go:84-111 | for each transaction a run of its chain is the run of the passes that succeeded as a whole with it pending in their batch |
| ChainQueue.ChainBumpsAddUp | ethergo/submitter/chain_queue.go:49-149 | over any run of a chain no payload changes, and each transaction pays its original prices bumped once per replacement |
| ChainQueue.OverpricedStays | ethergo/submitter/chain_queue.go:184-187 | a transaction above the ceiling stays the same in every run, and each pass fails that has it in its batch, pending and elapsed |
| ChainQueue.PassedAt | ethergo/submitter/db/txdb/store.go:123-129 | a pass replaces what is in its batch, the first transactions not marked up to the limit, and nothing else |
| ChainQueue.PassReplaces | ethergo/submitter/chain_queue.go:84-149 | a pass replaces every pending transaction of its batch if each can be bumped, marking works and the database takes the result |
| ChainQueue.MarkedIff | ethergo/submitter/chain_queue.go:84-94 | exactly the transactions below the current nonce get marked, by a pass that meets one of them |
| ChainQueue.MarkedStaysBelow | ethergo/submitter/db/txdb/store.go:50-64 | what is not mined is not marked, over any run |
| ChainQueue.OverpricedHoldsUp | ethergo/submitter/queue.go:81-90 | over any run in which it is not mined, no pass sends an overpriced, elapsed transaction or anything behind it |
| ChainQueue.HeldUpIff | ethergo/submitter/queue.go:81-90 | with an overpriced, elapsed transaction exactly those can be sent that are in the batch while it is not |
| ChainQueue.HeldUpOneAtATime | ethergo/submitter/db/txdb/store.go:66-70 | with one result per chain exactly the lowest transaction not marked can be sent, unless it is the overpriced one |
| Agents.ValidIsOriginState | agents/agents/notary/notary.go:302-397 | a state that passes is the origin's, in full beyond the compared low 64 bits, and in gas data up to a computed collision |
| Agents.OwnStatePasses | agents/agents/notary/notary.go:302-397 | the origin's own state passes exactly if it can be encoded, and nothing does without an answer |
| Agents.ChosenIff | agents/agents/guard/guard.go:339-357 | a state is chosen exactly if it has a positive nonce, is newer than the one remembered, and is accepted |
| Agents.ConfirmedNewsIsChosen | agents/agents/notary/notary.go:400-430 | a newer state that its origin confirms is chosen |
| Agents.HashBinding | agents/types/state.go:91-100 | states in range with one hash are equal, or a computed collision |
| Agents.NotaryStatesAreTheOrigins | agents/agents/notary/notary.go:400-430 | every state in a Notary's snapshot is the one its origin returned for that nonce |
| Agents.Notary.LoadSummitGuardLatestStates | agents/agents/notary/notary.go:134-157 | failed calls and nonce zero leave what was there |
| Agents.Notary.GetLatestSnapshot | agents/agents/notary/notary.go:400-443 | exactly the domains with a newer, confirmed state, one state each, and no snapshot exactly when there is none |
| Agents.Notary.SubmitLatestSnapshot | agents/agents/notary/notary.go:446-482 | remembers the submitted states exactly after success, and changes nothing otherwise |
| Agents.Guard.LoadOriginLatestStates | agents/agents/guard/guard.go:305-336 | takes every answer, of nonce zero too |
| Agents.Guard.GetLatestSnapshot | agents/agents/guard/guard.go:339-370 | exactly the domains with a newer state, one state each |
| Agents.Guard.SubmitLatestSnapshot | agents/agents/guard/guard.go:373-417 | remembers the submitted states exactly after success, and changes nothing otherwise |
| Agents.CollectStates | agents/agents/notary/notary.go:431-437 | in any order of iteration the snapshot has one state for each domain |
| Agents.NoncesIncrease | agents/agents/guard/guard.go:373-417 | over any run of either agent, the nonces of one origin in submitted snapshots strictly increase from what was remembered at first |
| Agents.AttemptOutcome | agents/agents/notary/notary.go:446-482 | a successful attempt with states to submit goes out and is remembered; any other one changes nothing |
| Agents.LoadAt | agents/agents/notary/notary.go:134-157 | each domain holds its latest answer of positive nonce, or what it held |
| Agents.Notary.Work | agents/agents/notary/notary.go:621-629 | any number of rounds of a new Notary is such a run, so its nonces strictly increase |
| Agents.Guard.Work | agents/agents/guard/guard.go:467-476 | any number of rounds of a new Guard is such a run, so its nonces strictly increase |
| Chunks.AscendingChunkIterator.NextChunk | ethergo/util/chunk.go:126-150 | the next chunk upwards, none exactly past the end, and the block it ended at remembered |
| Chunks.DescendingChunkIterator.NextChunk | ethergo/util/chunk.go:99-123 | the next chunk downwards, none exactly below the start, and the block it ended at remembered |
| Chunks.DrainUp | ethergo/util/chunk.go:126-150 | an ascending iterator ends, and yields the recursive list of chunks |
| Chunks.DrainDown | ethergo/util/chunk.go:99-123 | a descending iterator ends, and yields the recursive list of chunks |
| Chunks.UpPartitions | ethergo/util/chunk.go:73-96 | each block of the range is in exactly one chunk and no other block in any; chunks are adjacent, in order, and all of chunkSize + 1 blocks but the last, which may have fewer |
| Chunks.DownPartitions | ethergo/util/chunk.go:73-96 | the same for descending iterators |
| Chunks.SameBlocksBothWays | ethergo/util/chunk.go:73-96 | both directions cover the same blocks, each once |

## Left out

- Keccak, ECDSA, gRPC streams, RPC clients, tracing, configuration, clocks, timers and back-off: outcomes of the outside are parameters or non-deterministic choices; retries appear as one call that succeeds or fails.
- Trees beyond their capacity (2^height leaves, and 2^32 - 1 by the counter) and heights of 64 and more: the code does not check them; `Insert` and the constructors require room.
- The nil-versus-zero distinction and aliasing of byte slices: hashes are values, so `append(leftChild, rightChild...)` cannot overwrite spare capacity of an inserted item.
- The SQL layers are modelled by their queries' contracts: rows in nonce order with do-nothing on a conflict, pages by offset and limit, highest stored nonce, last stored block, metadata of any matching row. The earliest state in range is whatever the database answers; proofs come back from their JSON form as they were.
- `processAttestation`, `setMinimumTime` and the optimistic period: `Execute` takes as a parameter whether the message is old enough; errors of that step and of the database queries are not modelled.
- Executor.ReachableInStep: says nothing about reads by other loops of the same process between a failed store and the stop; the logs are those that the origin sent, without reorganisations, and no other executor writes to the table. A row's block number is that of its log and is not a field of the model's row.
- The executor's origin proof is copied into 32 arrays of 32 bytes before submission; the model submits the list itself, which is the same for the message tree's height and 32-byte items.
- NonceAllocator.NoncesWellAllocated: nonces do not wrap at 2^64, on-chain nonces never decrease, and `call` signs once and does not fail afterwards; what happens otherwise is `StuckForever`. One submitter works for a signer on a database; the mutex knows nothing of another process. A call that never signs makes the code unlock a nil locker, which is not modelled.
- Data races on shared error variables, and sequentially inconsistent memory: a step is one access to shared memory.
- MapMutex.MutualExclusion: each Unlocker is used once; a second Unlock of one Unlocker is a caller's error. Fairness and eventual acquisition are not claimed.
- Listener.NothingMissed: other listeners of the chain are modelled by what they store; block numbers do not wrap (start + 2000 in 64 bits), and a chain's logs do not change once served.
- GasPrice.ReplacementPaysMore: a bump is any monotone function that never lowers a price. `FactorBump` is the exact product with a rational factor, which every double is, rounded down; `BumpByPercent` rounds that product to the precision of the factors (at least 64 bits) first, which is not modelled. Big integers are non-negative.
- ChainQueue.ChainPendingQueue: computes what is sent; status fields are not modelled. Marked transactions stay in the model's list, and those that a submission finds already below the current nonce get marked in the next pass that has one of them in its batch. Access lists and the fields that `CopyTX` drops are not modelled.
- MessageEncoder.EncodeTips: tips of 2^64 and more are truncated as in the code; only `TipsRoundTrip` says exactly when nothing is lost.
- DecodeMessage, DecodeTips and DecodeRequest on byte strings that are too short: Go panics there; the model requires the length.
- `EncodeAgentStatus` and `DecodeAgentStatus`: the decoder uses bit counts as byte offsets, so they are no round trip. Signatures are not modelled.
- Agents: loading one's own last states at the start, attestations, agent status and fraud reports; the memory at the start is a parameter. A submission counts as successful when the submitter accepts it.
- HeaderSearch.HeaderByTime: the chain does not change during the search, and the two end points are fetched one after the other. Only the cache's contents are modelled, not its locks.
- Committee, libp2p, CLI, deployers, generated bindings, user interfaces and test utilities: plumbing without a hidden property.
- `ChunkSlice`, `WithBackoff`, string helpers and stringers: they would only add easy members.
