/** Messages on the wire: header, tips, request, base message. */
module MessageEncoder {
  import opened Wrappers
  import opened Bytes
  import opened Encoder

  // ----- headers -----

  const MESSAGE_FLAG_BASE := 0
  const MESSAGE_FLAG_MANAGER := 1
  const MESSAGE_HEADER_SIZE := 17

  datatype Header = Header(
    flag: byte, originDomain: uint32, nonce: uint32, destinationDomain: uint32,
    optimisticSeconds: uint32)

  function EncodeHeader(h: Header): (b: Bytes)
    ensures |b| == MESSAGE_HEADER_SIZE
  {
    [h.flag] + PutUint32(h.originDomain) + PutUint32(h.nonce) + PutUint32(h.destinationDomain)
    + PutUint32(h.optimisticSeconds)
  }

  /** binary.Read takes what it needs and ignores the rest. */
  function DecodeHeader(b: Bytes): (r: Result<Header>)
    ensures r.Ok? <==> |b| >= MESSAGE_HEADER_SIZE
  {
    if |b| < MESSAGE_HEADER_SIZE then Err
    else Ok(Header(b[0], Uint32(b[1..5]), Uint32(b[5..9]), Uint32(b[9..13]), Uint32(b[13..17])))
  }

  lemma HeaderRoundTrip(h: Header, more: Bytes)
    ensures DecodeHeader(EncodeHeader(h) + more) == Ok(h)
  {
    var b := EncodeHeader(h) + more;
    assert b[1..5] == PutUint32(h.originDomain);
    assert b[5..9] == PutUint32(h.nonce);
    assert b[9..13] == PutUint32(h.destinationDomain);
    assert b[13..17] == PutUint32(h.optimisticSeconds);
    Uint32RoundTrip(h.originDomain);
    Uint32RoundTrip(h.nonce);
    Uint32RoundTrip(h.destinationDomain);
    Uint32RoundTrip(h.optimisticSeconds);
  }

  /** Each field is at its offset. */
  lemma HeaderLayout(h: Header)
    ensures var b := EncodeHeader(h);
      && b[0] == h.flag
      && FromBigEndian(b[1..5]) == h.originDomain
      && FromBigEndian(b[5..9]) == h.nonce
      && FromBigEndian(b[9..13]) == h.destinationDomain
      && FromBigEndian(b[13..17]) == h.optimisticSeconds
  {
    HeaderRoundTrip(h, []);
    assert EncodeHeader(h) + [] == EncodeHeader(h);
  }

  lemma HeaderBytes(b: Bytes)
    requires |b| >= MESSAGE_HEADER_SIZE
    ensures EncodeHeader(DecodeHeader(b).value) == b[..MESSAGE_HEADER_SIZE]
  {
    Bytes32RoundTrip(b[1..5]);
    Bytes32RoundTrip(b[5..9]);
    Bytes32RoundTrip(b[9..13]);
    Bytes32RoundTrip(b[13..17]);
    assert b[..17] == [b[0]] + b[1..5] + b[5..9] + b[9..13] + b[13..17];
  }

  // ----- tips -----

  const TIPS_SIZE := 32

  datatype Tips = Tips(summitTip: nat, attestationTip: nat, executionTip: nat, deliveryTip: nat)

  /** The low 64 bits. */
  function Wrap64(n: nat): (b: Bytes)
    ensures |b| == 8
  {
    PutUint64(U64(n))
  }

  function EncodeTips(t: Tips): (b: Bytes)
    ensures |b| == TIPS_SIZE
  {
    Wrap64(t.summitTip) + Wrap64(t.attestationTip) + Wrap64(t.executionTip) + Wrap64(t.deliveryTip)
  }

  /** The delivery tip is all that follows the other three. */
  function DecodeTips(b: Bytes): Tips
    requires |b| >= 24
  {
    Tips(FromBigEndian(b[0..8]), FromBigEndian(b[8..16]), FromBigEndian(b[16..24]), FromBigEndian(b[24..]))
  }

  predicate TipsInRange(t: Tips)
  {
    U64(t.summitTip) == t.summitTip && U64(t.attestationTip) == t.attestationTip
    && U64(t.executionTip) == t.executionTip && U64(t.deliveryTip) == t.deliveryTip
  }

  lemma TipsRoundTrip(t: Tips)
    ensures DecodeTips(EncodeTips(t)) == t <==> TipsInRange(t)
  {
    var b := EncodeTips(t);
    assert b[0..8] == Wrap64(t.summitTip);
    assert b[8..16] == Wrap64(t.attestationTip);
    assert b[16..24] == Wrap64(t.executionTip);
    assert b[24..] == Wrap64(t.deliveryTip);
    Uint64RoundTrip(U64(t.summitTip));
    Uint64RoundTrip(U64(t.attestationTip));
    Uint64RoundTrip(U64(t.executionTip));
    Uint64RoundTrip(U64(t.deliveryTip));
  }

  lemma TipsLayout(t: Tips)
    ensures var b := EncodeTips(t);
      && FromBigEndian(b[0..8]) == U64(t.summitTip)
      && FromBigEndian(b[8..16]) == U64(t.attestationTip)
      && FromBigEndian(b[16..24]) == U64(t.executionTip)
      && FromBigEndian(b[24..32]) == U64(t.deliveryTip)
  {
    var b := EncodeTips(t);
    assert b[0..8] == Wrap64(t.summitTip);
    assert b[8..16] == Wrap64(t.attestationTip);
    assert b[16..24] == Wrap64(t.executionTip);
    assert b[24..32] == Wrap64(t.deliveryTip);
    Uint64RoundTrip(U64(t.summitTip));
    Uint64RoundTrip(U64(t.attestationTip));
    Uint64RoundTrip(U64(t.executionTip));
    Uint64RoundTrip(U64(t.deliveryTip));
  }

  lemma TipsBytes(b: Bytes)
    requires |b| == TIPS_SIZE
    ensures TipsInRange(DecodeTips(b)) && EncodeTips(DecodeTips(b)) == b
  {
    Bytes64RoundTrip(b[0..8]);
    Bytes64RoundTrip(b[8..16]);
    Bytes64RoundTrip(b[16..24]);
    Bytes64RoundTrip(b[24..]);
    assert DecodeTips(b) == Tips(Uint64(b[0..8]), Uint64(b[8..16]), Uint64(b[16..24]), Uint64(b[24..]));
    assert b == b[0..8] + b[8..16] + b[16..24] + b[24..];
  }

  // ----- requests -----

  const REQUEST_SIZE := 24

  datatype Request = Request(version: uint32, gasLimit: uint64, gasDrop: nat)

  function EncodeRequest(r: Request): Bytes
  {
    PutUint32(r.version) + PutUint64(r.gasLimit) + PaddedBigBytes(r.gasDrop, 12)
  }

  function DecodeRequest(b: Bytes): Request
    requires |b| >= REQUEST_SIZE
  {
    Request(Uint32(b[0..4]), Uint64(b[4..12]), FromBigEndian(b[12..24]))
  }

  predicate RequestInRange(r: Request)
  {
    r.gasDrop < Pow256(12)
  }

  /** A gas drop of more than 96 bits makes the request longer than its fixed size. */
  lemma RequestLength(r: Request)
    ensures |EncodeRequest(r)| == REQUEST_SIZE <==> RequestInRange(r)
  {
    PaddedLength(r.gasDrop, 12);
  }

  lemma RequestRoundTrip(r: Request)
    requires RequestInRange(r)
    ensures |EncodeRequest(r)| == REQUEST_SIZE && DecodeRequest(EncodeRequest(r)) == r
  {
    RequestLength(r);
    var b := EncodeRequest(r);
    assert b[0..4] == PutUint32(r.version);
    assert b[4..12] == PutUint64(r.gasLimit);
    assert b[12..24] == PaddedBigBytes(r.gasDrop, 12);
    Uint32RoundTrip(r.version);
    Uint64RoundTrip(r.gasLimit);
    PaddedRoundTrip(r.gasDrop, 12);
  }

  /** The gas drop comes last and takes what it needs. */
  lemma RequestLayout(r: Request)
    ensures var b := EncodeRequest(r);
      && |b| >= 12
      && FromBigEndian(b[0..4]) == r.version
      && FromBigEndian(b[4..12]) == r.gasLimit
      && FromBigEndian(b[12..]) == r.gasDrop
  {
    var b := EncodeRequest(r);
    assert b[0..4] == PutUint32(r.version);
    assert b[4..12] == PutUint64(r.gasLimit);
    assert b[12..] == PaddedBigBytes(r.gasDrop, 12);
    Uint32RoundTrip(r.version);
    Uint64RoundTrip(r.gasLimit);
    PaddedRoundTrip(r.gasDrop, 12);
  }

  lemma RequestBytes(b: Bytes)
    requires |b| == REQUEST_SIZE
    ensures RequestInRange(DecodeRequest(b)) && EncodeRequest(DecodeRequest(b)) == b
  {
    Bytes32RoundTrip(b[0..4]);
    Bytes64RoundTrip(b[4..12]);
    PaddedBytesRoundTrip(b[12..24]);
    assert b == b[0..4] + b[4..12] + b[12..24];
  }

  // ----- base messages -----

  const BASE_MESSAGE_SENDER_OFFSET := 32
  const BASE_MESSAGE_RECIPIENT_OFFSET := 64
  const BASE_MESSAGE_REQUEST_OFFSET := BASE_MESSAGE_RECIPIENT_OFFSET + TIPS_SIZE
  const BASE_MESSAGE_CONTENT_OFFSET := BASE_MESSAGE_REQUEST_OFFSET + REQUEST_SIZE

  datatype BaseMessage = BaseMessage(
    sender: Bytes32, recipient: Bytes32, tips: Tips, request: Request, content: Bytes)

  function EncodeBaseMessage(m: BaseMessage): (b: Bytes)
    ensures |b| >= BASE_MESSAGE_SENDER_OFFSET
  {
    EncodeTips(m.tips) + m.sender + m.recipient + EncodeRequest(m.request) + m.content
  }

  function DecodeBaseMessage(b: Bytes): (r: Result<BaseMessage>)
    ensures r.Ok? <==> |b| >= BASE_MESSAGE_CONTENT_OFFSET
  {
    if |b| < BASE_MESSAGE_CONTENT_OFFSET then Err
    else Ok(BaseMessage(
      b[BASE_MESSAGE_SENDER_OFFSET..BASE_MESSAGE_RECIPIENT_OFFSET],
      b[BASE_MESSAGE_RECIPIENT_OFFSET..BASE_MESSAGE_REQUEST_OFFSET],
      DecodeTips(b[0..BASE_MESSAGE_SENDER_OFFSET]),
      DecodeRequest(b[BASE_MESSAGE_REQUEST_OFFSET..BASE_MESSAGE_CONTENT_OFFSET]),
      b[BASE_MESSAGE_CONTENT_OFFSET..]))
  }

  predicate BaseInRange(m: BaseMessage)
  {
    TipsInRange(m.tips) && RequestInRange(m.request)
  }

  lemma BaseMessageRoundTrip(m: BaseMessage)
    requires BaseInRange(m)
    ensures DecodeBaseMessage(EncodeBaseMessage(m)) == Ok(m)
  {
    TipsRoundTrip(m.tips);
    RequestRoundTrip(m.request);
    var b := EncodeBaseMessage(m);
    assert b[0..32] == EncodeTips(m.tips);
    assert b[32..64] == m.sender;
    assert b[64..96] == m.recipient;
    assert b[96..120] == EncodeRequest(m.request);
    assert b[120..] == m.content;
  }

  lemma BaseMessageLayout(m: BaseMessage)
    ensures var b, n := EncodeBaseMessage(m), |EncodeRequest(m.request)|;
      && |b| == 96 + n + |m.content|
      && b[0..32] == EncodeTips(m.tips)
      && b[32..64] == m.sender
      && b[64..96] == m.recipient
      && b[96..96 + n] == EncodeRequest(m.request)
      && b[96 + n..] == m.content
  {
  }

  lemma BaseMessageBytes(b: Bytes)
    requires |b| >= BASE_MESSAGE_CONTENT_OFFSET
    ensures BaseInRange(DecodeBaseMessage(b).value)
    ensures EncodeBaseMessage(DecodeBaseMessage(b).value) == b
  {
    TipsBytes(b[0..32]);
    RequestBytes(b[96..120]);
    assert b == b[0..32] + b[32..64] + b[64..96] + b[96..120] + b[120..];
  }

  // ----- messages -----

  /** A message of the base flag has a base message; its body is then that message encoded. */
  datatype Message = Message(header: Header, baseMessage: Option<BaseMessage>, body: Bytes)

  predicate HasBase(m: Message)
  {
    m.header.flag == MESSAGE_FLAG_BASE ==> m.baseMessage.Some?
  }

  /** What the constructors and the decoder produce, for fields that fit their encodings. */
  predicate WellFormed(m: Message)
  {
    if m.header.flag == MESSAGE_FLAG_BASE then
      && m.baseMessage.Some? && BaseInRange(m.baseMessage.value)
      && m.body == EncodeBaseMessage(m.baseMessage.value)
    else m.baseMessage == None
  }

  function NewMessageFromBaseMessage(header: Header, baseMessage: BaseMessage): (r: Result<Message>)
    ensures r.Ok? <==> header.flag == 0
    ensures r.Ok? && BaseInRange(baseMessage) ==> WellFormed(r.value)
  {
    if header.flag != MESSAGE_FLAG_BASE then Err
    else Ok(Message(header, Some(baseMessage), EncodeBaseMessage(baseMessage)))
  }

  function NewMessageFromManagerMessage(header: Header, payload: Bytes): (r: Result<Message>)
    ensures r.Ok? <==> header.flag == 1
    ensures r.Ok? ==> WellFormed(r.value)
  {
    if header.flag != MESSAGE_FLAG_MANAGER then Err else Ok(Message(header, None, payload))
  }

  function EncodeMessage(m: Message): Bytes
    requires HasBase(m)
  {
    EncodeHeader(m.header)
    + if m.header.flag == MESSAGE_FLAG_BASE then EncodeBaseMessage(m.baseMessage.value) else m.body
  }

  /** Go panics on a message shorter than a header. */
  function DecodeMessage(b: Bytes): Result<Message>
    requires |b| >= MESSAGE_HEADER_SIZE
  {
    var header := DecodeHeader(b[..MESSAGE_HEADER_SIZE]).value;
    var rawBody := b[MESSAGE_HEADER_SIZE..];
    if header.flag == MESSAGE_FLAG_BASE then
      var baseMessage := DecodeBaseMessage(rawBody);
      if baseMessage.Err? then Err else Ok(Message(header, Some(baseMessage.value), rawBody))
    else Ok(Message(header, None, rawBody))
  }

  lemma MessageRoundTrip(m: Message)
    requires WellFormed(m)
    ensures |EncodeMessage(m)| >= MESSAGE_HEADER_SIZE && DecodeMessage(EncodeMessage(m)) == Ok(m)
  {
    var b := EncodeMessage(m);
    assert b[..17] == EncodeHeader(m.header) + [];
    HeaderRoundTrip(m.header, []);
    assert b[17..] == m.body;
    if m.header.flag == MESSAGE_FLAG_BASE {
      BaseMessageRoundTrip(m.baseMessage.value);
    }
  }

  lemma MessageLayout(m: Message)
    requires HasBase(m)
    ensures var b := EncodeMessage(m);
      && |b| >= 17 && b[0..17] == EncodeHeader(m.header)
      && b[17..] == if m.header.flag == 0 then EncodeBaseMessage(m.baseMessage.value) else m.body
  {
  }

  /** Every byte string that decodes is the encoding of what it decodes to, and only a base
      message that is too short does not decode. */
  lemma MessageBytes(b: Bytes)
    requires |b| >= MESSAGE_HEADER_SIZE
    ensures DecodeMessage(b).Err? <==>
      b[0] == MESSAGE_FLAG_BASE && |b| < MESSAGE_HEADER_SIZE + BASE_MESSAGE_CONTENT_OFFSET
    ensures DecodeMessage(b).Ok? ==>
      WellFormed(DecodeMessage(b).value) && EncodeMessage(DecodeMessage(b).value) == b
  {
    HeaderBytes(b[..17]);
    assert b == b[..17] + b[17..];
    if b[0] == MESSAGE_FLAG_BASE && DecodeMessage(b).Ok? {
      BaseMessageBytes(b[17..]);
    }
  }

  /** Different well-formed messages have different encodings. */
  lemma EncodeMessageInjective(m: Message, m': Message)
    requires WellFormed(m) && WellFormed(m') && EncodeMessage(m) == EncodeMessage(m')
    ensures m == m'
  {
    MessageRoundTrip(m);
    MessageRoundTrip(m');
  }
}
