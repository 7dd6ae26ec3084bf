/** The fixed-layout encodings of the agents' records: big-endian fields at explicit offsets. */
module Encoder {
  import opened Wrappers
  import opened Bytes

  type Address = b: Bytes | |b| == 20 witness Zeros(20)

  // ----- numbers -----

  function PutUint16(n: uint16): (b: Bytes)
    ensures |b| == 2
  {
    ToBigEndian(n, 2)
  }

  function PutUint32(n: uint32): (b: Bytes)
    ensures |b| == 4
  {
    ToBigEndian(n, 4)
  }

  function PutUint64(n: uint64): (b: Bytes)
    ensures |b| == 8
  {
    ToBigEndian(n, 8)
  }

  function Uint16(b: Bytes): uint16
    requires |b| == 2
  {
    ToFromBigEndian(b);
    FromBigEndian(b)
  }

  function Uint32(b: Bytes): uint32
    requires |b| == 4
  {
    ToFromBigEndian(b);
    FromBigEndian(b)
  }

  function Uint64(b: Bytes): uint64
    requires |b| == 8
  {
    ToFromBigEndian(b);
    FromBigEndian(b)
  }

  lemma Uint16RoundTrip(n: uint16)
    ensures Uint16(PutUint16(n)) == n
  {
    FromToBigEndian(n, 2);
  }

  lemma Uint32RoundTrip(n: uint32)
    ensures Uint32(PutUint32(n)) == n
  {
    FromToBigEndian(n, 4);
  }

  lemma Uint64RoundTrip(n: uint64)
    ensures Uint64(PutUint64(n)) == n
  {
    FromToBigEndian(n, 8);
  }

  lemma Bytes16RoundTrip(b: Bytes)
    requires |b| == 2
    ensures PutUint16(Uint16(b)) == b
  {
    ToFromBigEndian(b);
  }

  lemma Bytes32RoundTrip(b: Bytes)
    requires |b| == 4
    ensures PutUint32(Uint32(b)) == b
  {
    ToFromBigEndian(b);
  }

  lemma Bytes64RoundTrip(b: Bytes)
    requires |b| == 8
    ensures PutUint64(Uint64(b)) == b
  {
    ToFromBigEndian(b);
  }

  /** big.Int.Bytes: as many bytes as the number needs. */
  function BigBytes(n: nat): Bytes
  {
    if n == 0 then [] else BigBytes(n / 0x100) + [n % 0x100]
  }

  /** math.PaddedBigBytes: `len` bytes, or more for a number that does not fit. */
  function PaddedBigBytes(n: nat, len: nat): Bytes
  {
    if n < Pow256(len) then ToBigEndian(n, len) else BigBytes(n)
  }

  lemma {:induction false} BigBytesLong(n: nat, len: nat)
    requires Pow256(len) <= n
    ensures |BigBytes(n)| > len
    decreases len
  {
    if len == 0 {
    } else {
      BigBytesLong(n / 0x100, len - 1);
    }
  }

  lemma PaddedLength(n: nat, len: nat)
    ensures |PaddedBigBytes(n, len)| == len <==> n < Pow256(len)
  {
    if Pow256(len) <= n {
      BigBytesLong(n, len);
    }
  }

  lemma {:induction false} BigBytesValue(n: nat)
    ensures FromBigEndian(BigBytes(n)) == n
  {
    if n == 0 {
    } else {
      BigBytesValue(n / 0x100);
      var b := BigBytes(n);
      assert b[..|b| - 1] == BigBytes(n / 0x100);
    }
  }

  /** The value is kept even if the length is not. */
  lemma PaddedRoundTrip(n: nat, len: nat)
    ensures FromBigEndian(PaddedBigBytes(n, len)) == n
  {
    if n < Pow256(len) {
      FromToBigEndian(n, len);
    } else {
      BigBytesValue(n);
    }
  }

  lemma PaddedBytesRoundTrip(b: Bytes)
    ensures FromBigEndian(b) < Pow256(|b|) && PaddedBigBytes(FromBigEndian(b), |b|) == b
  {
    ToFromBigEndian(b);
  }

  const UINT40_LIMIT: nat := 0x100_0000_0000

  lemma Pow256Of5()
    ensures Pow256(5) == UINT40_LIMIT
  {
  }

  // ----- gas data -----

  datatype GasData = GasData(
    gasPrice: uint16, dataPrice: uint16, execBuffer: uint16,
    amortAttCost: uint16, etherPrice: uint16, markup: uint16)

  const GAS_DATA_SIZE := 12

  function EncodeGasData(g: GasData): (b: Bytes)
    ensures |b| == GAS_DATA_SIZE
  {
    PutUint16(g.gasPrice) + PutUint16(g.dataPrice) + PutUint16(g.execBuffer)
    + PutUint16(g.amortAttCost) + PutUint16(g.etherPrice) + PutUint16(g.markup)
  }

  function DecodeGasData(b: Bytes): (r: Result<GasData>)
    ensures r.Ok? <==> |b| == GAS_DATA_SIZE
  {
    if |b| != GAS_DATA_SIZE then Err
    else Ok(GasData(Uint16(b[0..2]), Uint16(b[2..4]), Uint16(b[4..6]),
                    Uint16(b[6..8]), Uint16(b[8..10]), Uint16(b[10..12])))
  }

  /** Each field is the big-endian number at its offset. */
  lemma GasDataLayout(g: GasData)
    ensures var b := EncodeGasData(g);
      && FromBigEndian(b[0..2]) == g.gasPrice
      && FromBigEndian(b[2..4]) == g.dataPrice
      && FromBigEndian(b[4..6]) == g.execBuffer
      && FromBigEndian(b[6..8]) == g.amortAttCost
      && FromBigEndian(b[8..10]) == g.etherPrice
      && FromBigEndian(b[10..12]) == g.markup
  {
    GasDataRoundTrip(g);
  }

  lemma GasDataRoundTrip(g: GasData)
    ensures DecodeGasData(EncodeGasData(g)) == Ok(g)
  {
    var b := EncodeGasData(g);
    assert b[0..2] == PutUint16(g.gasPrice);
    assert b[2..4] == PutUint16(g.dataPrice);
    assert b[4..6] == PutUint16(g.execBuffer);
    assert b[6..8] == PutUint16(g.amortAttCost);
    assert b[8..10] == PutUint16(g.etherPrice);
    assert b[10..12] == PutUint16(g.markup);
    Uint16RoundTrip(g.gasPrice);
    Uint16RoundTrip(g.dataPrice);
    Uint16RoundTrip(g.execBuffer);
    Uint16RoundTrip(g.amortAttCost);
    Uint16RoundTrip(g.etherPrice);
    Uint16RoundTrip(g.markup);
  }

  lemma GasDataBytes(b: Bytes)
    requires |b| == GAS_DATA_SIZE
    ensures EncodeGasData(DecodeGasData(b).value) == b
  {
    Bytes16RoundTrip(b[0..2]);
    Bytes16RoundTrip(b[2..4]);
    Bytes16RoundTrip(b[4..6]);
    Bytes16RoundTrip(b[6..8]);
    Bytes16RoundTrip(b[8..10]);
    Bytes16RoundTrip(b[10..12]);
    assert b == b[0..2] + b[2..4] + b[4..6] + b[6..8] + b[8..10] + b[10..12];
  }

  datatype ChainGas = ChainGas(domain: uint32, gasData: GasData)

  const CHAIN_GAS_SIZE := 16

  function EncodeChainGas(c: ChainGas): (b: Bytes)
    ensures |b| == CHAIN_GAS_SIZE
  {
    PutUint32(c.domain) + EncodeGasData(c.gasData)
  }

  function DecodeChainGas(b: Bytes): (r: Result<ChainGas>)
    ensures r.Ok? <==> |b| == CHAIN_GAS_SIZE
  {
    if |b| != CHAIN_GAS_SIZE then Err
    else Ok(ChainGas(Uint32(b[0..4]), DecodeGasData(b[4..16]).value))
  }

  lemma ChainGasLayout(c: ChainGas)
    ensures var b := EncodeChainGas(c); FromBigEndian(b[0..4]) == c.domain && b[4..16] == EncodeGasData(c.gasData)
  {
    var b := EncodeChainGas(c);
    assert b[0..4] == PutUint32(c.domain) && b[4..16] == EncodeGasData(c.gasData);
    Uint32RoundTrip(c.domain);
  }

  lemma ChainGasRoundTrip(c: ChainGas)
    ensures DecodeChainGas(EncodeChainGas(c)) == Ok(c)
  {
    var b := EncodeChainGas(c);
    assert b[0..4] == PutUint32(c.domain);
    assert b[4..16] == EncodeGasData(c.gasData);
    Uint32RoundTrip(c.domain);
    GasDataRoundTrip(c.gasData);
  }

  lemma ChainGasBytes(b: Bytes)
    requires |b| == CHAIN_GAS_SIZE
    ensures EncodeChainGas(DecodeChainGas(b).value) == b
  {
    Bytes32RoundTrip(b[0..4]);
    GasDataBytes(b[4..16]);
    assert b == b[0..4] + b[4..16];
  }

  // ----- states and snapshots -----

  /** Block number and timestamp are big integers. */
  datatype State = State(
    root: Bytes32, origin: uint32, nonce: uint32, blockNumber: nat, timestamp: nat, gasData: GasData)

  const STATE_OFFSET_ORIGIN := 32
  const STATE_OFFSET_NONCE := 36
  const STATE_OFFSET_BLOCK_NUMBER := 40
  const STATE_OFFSET_TIMESTAMP := 45
  const STATE_OFFSET_GAS_DATA := 50
  const STATE_SIZE := 62

  function EncodeState(s: State): (r: Result<Bytes>)
    ensures r.Ok? ==> |r.value| == STATE_SIZE
  {
    var blockNumberBytes := PaddedBigBytes(s.blockNumber, 5);
    var timestampBytes := PaddedBigBytes(s.timestamp, 5);
    if |blockNumberBytes| != 5 then Err
    else if |timestampBytes| != 5 then Err
    else Ok(s.root + PutUint32(s.origin) + PutUint32(s.nonce) + blockNumberBytes + timestampBytes
            + EncodeGasData(s.gasData))
  }

  function DecodeState(b: Bytes): (r: Result<State>)
    ensures r.Ok? <==> |b| == STATE_SIZE
  {
    if |b| != STATE_SIZE then Err
    else Ok(State(b[0..STATE_OFFSET_ORIGIN],
                  Uint32(b[STATE_OFFSET_ORIGIN..STATE_OFFSET_NONCE]),
                  Uint32(b[STATE_OFFSET_NONCE..STATE_OFFSET_BLOCK_NUMBER]),
                  FromBigEndian(b[STATE_OFFSET_BLOCK_NUMBER..STATE_OFFSET_TIMESTAMP]),
                  FromBigEndian(b[STATE_OFFSET_TIMESTAMP..STATE_OFFSET_GAS_DATA]),
                  DecodeGasData(b[STATE_OFFSET_GAS_DATA..STATE_SIZE]).value))
  }

  predicate StateInRange(s: State)
  {
    s.blockNumber < UINT40_LIMIT && s.timestamp < UINT40_LIMIT
  }

  /** Encoding works exactly for 40-bit block numbers and timestamps. */
  lemma EncodeStateOk(s: State)
    ensures EncodeState(s).Ok? <==> StateInRange(s)
  {
    Pow256Of5();
    PaddedLength(s.blockNumber, 5);
    PaddedLength(s.timestamp, 5);
  }

  lemma StateRoundTrip(s: State)
    requires StateInRange(s)
    ensures EncodeState(s).Ok? && DecodeState(EncodeState(s).value) == Ok(s)
  {
    EncodeStateOk(s);
    var b := EncodeState(s).value;
    assert b[0..32] == s.root;
    assert b[32..36] == PutUint32(s.origin);
    assert b[36..40] == PutUint32(s.nonce);
    assert b[40..45] == PaddedBigBytes(s.blockNumber, 5);
    assert b[45..50] == PaddedBigBytes(s.timestamp, 5);
    assert b[50..62] == EncodeGasData(s.gasData);
    Uint32RoundTrip(s.origin);
    Uint32RoundTrip(s.nonce);
    Pow256Of5();
    PaddedRoundTrip(s.blockNumber, 5);
    PaddedRoundTrip(s.timestamp, 5);
    GasDataRoundTrip(s.gasData);
  }

  lemma StateLayout(s: State)
    requires StateInRange(s)
    ensures EncodeState(s).Ok?
    ensures var b := EncodeState(s).value;
      && b[0..32] == s.root
      && FromBigEndian(b[32..36]) == s.origin
      && FromBigEndian(b[36..40]) == s.nonce
      && FromBigEndian(b[40..45]) == s.blockNumber
      && FromBigEndian(b[45..50]) == s.timestamp
      && b[50..62] == EncodeGasData(s.gasData)
  {
    StateRoundTrip(s);
    var b := EncodeState(s).value;
    assert b[50..62] == EncodeGasData(s.gasData);
  }

  lemma StateBytes(b: Bytes)
    requires |b| == STATE_SIZE
    ensures StateInRange(DecodeState(b).value) && EncodeState(DecodeState(b).value) == Ok(b)
  {
    Bytes32RoundTrip(b[32..36]);
    Bytes32RoundTrip(b[36..40]);
    Pow256Of5();
    PaddedBytesRoundTrip(b[40..45]);
    PaddedBytesRoundTrip(b[45..50]);
    GasDataBytes(b[50..62]);
    assert b == b[0..32] + b[32..36] + b[36..40] + b[40..45] + b[45..50] + b[50..62];
  }

  /** The encodings of the states one after the other; an error if one has none. */
  function StatesBytes(states: seq<State>): (r: Result<Bytes>)
    ensures r.Ok? ==> |r.value| == STATE_SIZE * |states|
  {
    if states == [] then Ok([])
    else
      var front := StatesBytes(states[..|states| - 1]);
      var last := EncodeState(states[|states| - 1]);
      if front.Ok? && last.Ok? then Ok(front.value + last.value) else Err
  }

  lemma {:induction false} StatesBytesOk(states: seq<State>)
    ensures StatesBytes(states).Ok? <==> forall i :: 0 <= i < |states| ==> StateInRange(states[i])
  {
    if states == [] {
    } else {
      StatesBytesOk(states[..|states| - 1]);
      EncodeStateOk(states[|states| - 1]);
    }
  }

  lemma {:induction false} StatesBytesErr(states: seq<State>, i: nat)
    requires i < |states| && EncodeState(states[i]).Err?
    ensures StatesBytes(states).Err?
  {
    if i < |states| - 1 {
      StatesBytesErr(states[..|states| - 1], i);
    }
  }

  method EncodeSnapshot(states: seq<State>) returns (r: Result<Bytes>)
    ensures r == if states == [] then Err else StatesBytes(states)
  {
    if |states| == 0 {
      return Err;
    }
    var encodedStates: Bytes := [];
    for i := 0 to |states|
      invariant StatesBytes(states[..i]) == Ok(encodedStates)
    {
      var encodedState := EncodeState(states[i]);
      assert states[..i + 1][..i] == states[..i];
      if encodedState.Err? {
        StatesBytesErr(states, i);
        return Err;
      }
      encodedStates := encodedStates + encodedState.value;
    }
    assert states[..|states|] == states;
    r := Ok(encodedStates);
  }

  function Record(b: Bytes, i: nat): (r: Bytes)
    requires STATE_SIZE * (i + 1) <= |b|
    ensures |r| == STATE_SIZE
  {
    b[STATE_SIZE * i..STATE_SIZE * (i + 1)]
  }

  /** The states in a byte string of `n` whole records. */
  function StatesIn(b: Bytes, n: nat): (states: seq<State>)
    requires |b| == STATE_SIZE * n
    ensures |states| == n
  {
    seq(n, i requires 0 <= i < n => DecodeState(Record(b, i)).value)
  }

  lemma StatesInSnoc(front: Bytes, last: Bytes, n: nat)
    requires |front| == STATE_SIZE * n && |last| == STATE_SIZE
    ensures StatesIn(front + last, n + 1) == StatesIn(front, n) + [DecodeState(last).value]
  {
    forall i | 0 <= i < n
      ensures Record(front + last, i) == Record(front, i)
    {
    }
    assert Record(front + last, n) == last;
  }

  /** The loop has decoded all records up to offset `i`. */
  predicate DecodedTo(b: Bytes, states: seq<State>, i: nat)
  {
    i <= |b| && i == STATE_SIZE * |states| && states == StatesIn(b[..i], |states|)
  }

  lemma OneMoreRecord(b: Bytes, states: seq<State>, i: nat)
    requires DecodedTo(b, states, i) && i + STATE_SIZE <= |b|
    ensures DecodedTo(b, states + [DecodeState(b[i..i + STATE_SIZE]).value], i + STATE_SIZE)
  {
    assert b[..i + STATE_SIZE] == b[..i] + b[i..i + STATE_SIZE];
    StatesInSnoc(b[..i], b[i..i + STATE_SIZE], |states|);
  }

  method DecodeSnapshot(b: Bytes) returns (r: Result<seq<State>>)
    ensures r.Ok? <==> |b| % STATE_SIZE == 0
    ensures r.Ok? ==> |b| == STATE_SIZE * |r.value| && r.value == StatesIn(b, |r.value|)
  {
    if |b| % STATE_SIZE != 0 {
      return Err;
    }
    ghost var n := |b| / STATE_SIZE;
    assert |b| == STATE_SIZE * n;
    var states: seq<State> := [];
    var i := 0;
    while i < |b|
      invariant |states| <= n && DecodedTo(b, states, i)
    {
      var state := DecodeState(b[i..i + STATE_SIZE]);
      OneMoreRecord(b, states, i);
      states := states + [state.value];
      i := i + STATE_SIZE;
    }
    assert b[..|b|] == b;
    r := Ok(states);
  }

  lemma {:induction false} StatesRoundTrip(states: seq<State>)
    requires forall i :: 0 <= i < |states| ==> StateInRange(states[i])
    ensures StatesBytes(states).Ok? && StatesIn(StatesBytes(states).value, |states|) == states
  {
    if states == [] {
    } else {
      var front, last := states[..|states| - 1], states[|states| - 1];
      StatesRoundTrip(front);
      StateRoundTrip(last);
      StatesInSnoc(StatesBytes(front).value, EncodeState(last).value, |front|);
      assert states == front + [last];
    }
  }

  lemma StatesBytesSnoc(states: seq<State>, a: Bytes, s: State, last: Bytes)
    requires StatesBytes(states) == Ok(a) && EncodeState(s) == Ok(last)
    ensures StatesBytes(states + [s]) == Ok(a + last)
  {
    assert (states + [s])[..|states|] == states;
  }

  lemma LastRecord(b: Bytes, front: Bytes, last: Bytes, n: nat) returns (s: State)
    requires n > 0 && |front| == STATE_SIZE * (n - 1) && |last| == STATE_SIZE && b == front + last
    ensures EncodeState(s) == Ok(last)
    ensures StatesIn(b, n) == StatesIn(front, n - 1) + [s]
  {
    s := DecodeState(last).value;
    StateBytes(last);
    StatesInSnoc(front, last, n - 1);
  }

  lemma {:induction false} StatesInBytes(b: Bytes, n: nat)
    requires |b| == STATE_SIZE * n
    ensures StatesBytes(StatesIn(b, n)) == Ok(b)
  {
    if n == 0 {
    } else {
      var size := STATE_SIZE * (n - 1);
      var front, last := b[..size], b[size..];
      assert b == front + last;
      var s := LastRecord(b, front, last, n);
      StatesInBytes(front, n - 1);
      StatesBytesSnoc(StatesIn(front, n - 1), front, s, last);
    }
  }

  // ----- attestations -----

  datatype Attestation = Attestation(
    snapshotRoot: Bytes32, dataHash: Bytes32, nonce: uint32, blockNumber: nat, timestamp: nat)

  const ATTESTATION_SIZE := 78

  function EncodeAttestation(a: Attestation): (r: Result<Bytes>)
    ensures r.Ok? ==> |r.value| == ATTESTATION_SIZE
  {
    var blockNumberBytes := PaddedBigBytes(a.blockNumber, 5);
    var timestampBytes := PaddedBigBytes(a.timestamp, 5);
    if |blockNumberBytes| != 5 then Err
    else if |timestampBytes| != 5 then Err
    else Ok(a.snapshotRoot + a.dataHash + PutUint32(a.nonce) + blockNumberBytes + timestampBytes)
  }

  function DecodeAttestation(b: Bytes): (r: Result<Attestation>)
    ensures r.Ok? <==> |b| == ATTESTATION_SIZE
  {
    if |b| != ATTESTATION_SIZE then Err
    else Ok(Attestation(b[0..32], b[32..64], Uint32(b[64..68]),
                        FromBigEndian(b[68..73]), FromBigEndian(b[73..78])))
  }

  predicate AttestationInRange(a: Attestation)
  {
    a.blockNumber < UINT40_LIMIT && a.timestamp < UINT40_LIMIT
  }

  lemma AttestationRoundTrip(a: Attestation)
    ensures EncodeAttestation(a).Ok? <==> AttestationInRange(a)
    ensures AttestationInRange(a) ==> DecodeAttestation(EncodeAttestation(a).value) == Ok(a)
  {
    Pow256Of5();
    PaddedLength(a.blockNumber, 5);
    PaddedLength(a.timestamp, 5);
    if AttestationInRange(a) {
      var b := EncodeAttestation(a).value;
      assert b[0..32] == a.snapshotRoot;
      assert b[32..64] == a.dataHash;
      assert b[64..68] == PutUint32(a.nonce);
      assert b[68..73] == PaddedBigBytes(a.blockNumber, 5);
      assert b[73..78] == PaddedBigBytes(a.timestamp, 5);
      Uint32RoundTrip(a.nonce);
      PaddedRoundTrip(a.blockNumber, 5);
      PaddedRoundTrip(a.timestamp, 5);
    }
  }

  lemma AttestationLayout(a: Attestation)
    requires AttestationInRange(a)
    ensures EncodeAttestation(a).Ok?
    ensures var b := EncodeAttestation(a).value;
      && b[0..32] == a.snapshotRoot
      && b[32..64] == a.dataHash
      && FromBigEndian(b[64..68]) == a.nonce
      && FromBigEndian(b[68..73]) == a.blockNumber
      && FromBigEndian(b[73..78]) == a.timestamp
  {
    AttestationRoundTrip(a);
  }

  lemma AttestationBytes(b: Bytes)
    requires |b| == ATTESTATION_SIZE
    ensures EncodeAttestation(DecodeAttestation(b).value) == Ok(b)
  {
    Bytes32RoundTrip(b[64..68]);
    PaddedBytesRoundTrip(b[68..73]);
    PaddedBytesRoundTrip(b[73..78]);
    assert b == b[0..32] + b[32..64] + b[64..68] + b[68..73] + b[73..78];
  }

  // ----- receipts -----

  datatype Receipt = Receipt(
    origin: uint32, destination: uint32, messageHash: Bytes32, snapshotRoot: Bytes32,
    stateIndex: byte, attestationNotary: Address, firstExecutor: Address, finalExecutor: Address)

  const RECEIPT_SIZE := 133

  function EncodeReceipt(r: Receipt): (b: Bytes)
    ensures |b| == RECEIPT_SIZE
  {
    PutUint32(r.origin) + PutUint32(r.destination) + r.messageHash + r.snapshotRoot
    + [r.stateIndex] + r.attestationNotary + r.firstExecutor + r.finalExecutor
  }

  function DecodeReceipt(b: Bytes): (r: Result<Receipt>)
    ensures r.Ok? <==> |b| == RECEIPT_SIZE
  {
    if |b| != RECEIPT_SIZE then Err
    else Ok(Receipt(Uint32(b[0..4]), Uint32(b[4..8]), b[8..40], b[40..72], b[72..73][0],
                    b[73..93], b[93..113], b[113..133]))
  }

  lemma ReceiptRoundTrip(r: Receipt)
    ensures DecodeReceipt(EncodeReceipt(r)) == Ok(r)
  {
    var b := EncodeReceipt(r);
    assert b[0..4] == PutUint32(r.origin);
    assert b[4..8] == PutUint32(r.destination);
    assert b[8..40] == r.messageHash;
    assert b[40..72] == r.snapshotRoot;
    assert b[73..93] == r.attestationNotary;
    assert b[93..113] == r.firstExecutor;
    assert b[113..] == r.finalExecutor;
    assert b[113..133] == b[113..];
    Uint32RoundTrip(r.origin);
    Uint32RoundTrip(r.destination);
  }

  lemma ReceiptLayout(r: Receipt)
    ensures var b := EncodeReceipt(r);
      && FromBigEndian(b[0..4]) == r.origin
      && FromBigEndian(b[4..8]) == r.destination
      && b[8..40] == r.messageHash
      && b[40..72] == r.snapshotRoot
      && b[72] == r.stateIndex
      && b[73..93] == r.attestationNotary
      && b[93..113] == r.firstExecutor
      && b[113..133] == r.finalExecutor
  {
    ReceiptRoundTrip(r);
  }

  lemma ReceiptBytes(b: Bytes)
    requires |b| == RECEIPT_SIZE
    ensures EncodeReceipt(DecodeReceipt(b).value) == b
  {
    Bytes32RoundTrip(b[0..4]);
    Bytes32RoundTrip(b[4..8]);
    assert b[72..73] == [b[72]];
    assert b == b[0..4] + b[4..8] + b[8..40] + b[40..72] + b[72..73] + b[73..93] + b[93..113] + b[113..133];
  }
}
