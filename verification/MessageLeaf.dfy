/** The leaf of a message in its origin's tree, and what the leaf commits to. */
module MessageLeaf {
  import opened Wrappers
  import opened Bytes
  import opened Hashing
  import opened Encoder
  import opened MessageEncoder
  import opened MerkleSpec
  import opened HistoricalTrees

  /** The encoded header, right-aligned in 32 bytes. */
  function PaddedHeader(h: Header): (b: Bytes)
    ensures |b| == 32
  {
    Zeros(15) + EncodeHeader(h)
  }

  /** The header is in the last 17 bytes, and the first 15 are zero. */
  lemma PaddedHeaderLayout(h: Header)
    ensures PaddedHeader(h)[..15] == Zeros(15)
    ensures DecodeHeader(PaddedHeader(h)[15..]) == Ok(h) && |PaddedHeader(h)| == 15 + 17
  {
    HeaderRoundTrip(h, []);
    assert PaddedHeader(h)[15..] == EncodeHeader(h) + [];
  }

  function HeaderHash(k: Hash, h: Header): Bytes32
  {
    Keccak(k, PaddedHeader(h))
  }

  method HeaderLeaf(k: Hash, h: Header) returns (leaf: Bytes32)
    ensures leaf == HeaderHash(k, h)
  {
    var paddedHeader := new byte[32](_ => 0);
    var bytesHeader := EncodeHeader(h);
    var startIndex := paddedHeader.Length - |bytesHeader|;
    CopyTo(paddedHeader, startIndex, bytesHeader);
    ZeroBefore(paddedHeader, startIndex);
    assert paddedHeader[..] == paddedHeader[..startIndex] + paddedHeader[startIndex..];
    leaf := Keccak(k, paddedHeader[..]);
  }

  /** The first loop, which fills the end of the array. */
  method CopyTo(a: array<byte>, start: nat, b: Bytes)
    requires start + |b| == a.Length
    modifies a
    ensures a[start..] == b
  {
    for i := 0 to |b|
      invariant a[start..start + i] == b[..i]
    {
      a[start + i] := b[i];
    }
    assert b[..|b|] == b;
    assert a[start..] == a[start..start + |b|];
  }

  /** The second one, which clears what is before that. */
  method ZeroBefore(a: array<byte>, start: nat)
    requires start <= a.Length
    modifies a
    ensures a[..start] == Zeros(start) && a[start..] == old(a[start..])
  {
    for i := 0 to start
      invariant forall j :: 0 <= j < i ==> a[j] == 0
      invariant a[start..] == old(a[start..])
    {
      a[i] := 0;
    }
  }

  /** Sender, recipient, request and content. */
  function BaseBody(m: BaseMessage): Bytes
  {
    EncodeBaseMessage(m)[BASE_MESSAGE_SENDER_OFFSET..]
  }

  function BodyLeaf(k: Hash, m: BaseMessage): Bytes32
  {
    Keccak(k, BaseBody(m))
  }

  function BaseLeaf(k: Hash, m: BaseMessage): Bytes32
  {
    Keccak(k, Keccak(k, EncodeTips(m.tips)) + BodyLeaf(k, m))
  }

  function ContentHash(k: Hash, m: Message): Bytes32
    requires HasBase(m)
  {
    if m.header.flag == MESSAGE_FLAG_BASE then BaseLeaf(k, m.baseMessage.value)
    else Keccak(k, m.body)
  }

  function ToLeaf(k: Hash, m: Message): Bytes32
    requires HasBase(m)
  {
    Keccak(k, HeaderHash(k, m.header) + ContentHash(k, m))
  }

  /** Two hashes that are not both zero prove their parent, each on its side. */
  predicate ParentOf(k: Hash, parent: Bytes32, left: Bytes32, right: Bytes32)
  {
    left != ZERO32 || right != ZERO32 ==>
      Verifies(k, parent, left, 0, [right], 1) && Verifies(k, parent, right, 1, [left], 1)
  }

  lemma HashedPair(k: Hash, left: Bytes32, right: Bytes32)
    ensures ParentOf(k, Keccak(k, left + right), left, right)
  {
    FoldStep(k, left, 0, right, []);
    FoldStep(k, right, 1, left, []);
    assert [right] + [] == [right] && [left] + [] == [left];
  }

  /** The leaf is a small tree of its own: the header's hash on the left and the content's on
      the right, and in a base message the tips' hash to the left of the body's. */
  lemma LeafParts(k: Hash, m: Message)
    requires HasBase(m)
    ensures ParentOf(k, ToLeaf(k, m), HeaderHash(k, m.header), ContentHash(k, m))
    ensures m.header.flag == MESSAGE_FLAG_BASE ==>
      var b := m.baseMessage.value;
      ParentOf(k, ContentHash(k, m), Keccak(k, EncodeTips(b.tips)), BodyLeaf(k, b))
    ensures m.header.flag != MESSAGE_FLAG_BASE ==> ContentHash(k, m) == Keccak(k, m.body)
  {
    HashedPair(k, HeaderHash(k, m.header), ContentHash(k, m));
    if m.header.flag == MESSAGE_FLAG_BASE {
      var b := m.baseMessage.value;
      HashedPair(k, Keccak(k, EncodeTips(b.tips)), BodyLeaf(k, b));
    }
  }

  /** What is hashed for the body: everything but the tips. */
  lemma BaseBodyIs(m: BaseMessage)
    ensures BaseBody(m) == m.sender + m.recipient + EncodeRequest(m.request) + m.content
  {
  }

  // ----- binding -----

  /** The two byte strings, hashed for two different messages with one leaf, that collide. */
  function LeafBreak(k: Hash, m: Message, m': Message): Break
    requires HasBase(m) && HasBase(m')
  {
    var top, top' := HeaderHash(k, m.header) + ContentHash(k, m), HeaderHash(k, m'.header) + ContentHash(k, m');
    if top != top' then Collision(top, top')
    else if m.header != m'.header then Collision(PaddedHeader(m.header), PaddedHeader(m'.header))
    else if m.header.flag == MESSAGE_FLAG_BASE then BaseBreak(k, m.baseMessage.value, m'.baseMessage.value)
    else Collision(m.body, m'.body)
  }

  function BaseBreak(k: Hash, b: BaseMessage, b': BaseMessage): Break
  {
    var tips, tips' := EncodeTips(b.tips), EncodeTips(b'.tips);
    var mid, mid' := Keccak(k, tips) + BodyLeaf(k, b), Keccak(k, tips') + BodyLeaf(k, b');
    if mid != mid' then Collision(mid, mid')
    else if tips != tips' then Collision(tips, tips')
    else Collision(BaseBody(b), BaseBody(b'))
  }

  lemma BaseBinding(k: Hash, b: BaseMessage, b': BaseMessage)
    requires BaseLeaf(k, b) == BaseLeaf(k, b') && EncodeBaseMessage(b) != EncodeBaseMessage(b')
    ensures Breaks(k, BaseBreak(k, b, b'))
  {
    var tips, tips' := EncodeTips(b.tips), EncodeTips(b'.tips);
    var mid, mid' := Keccak(k, tips) + BodyLeaf(k, b), Keccak(k, tips') + BodyLeaf(k, b');
    if mid == mid' {
      SplitConcat(Keccak(k, tips), BodyLeaf(k, b), Keccak(k, tips'), BodyLeaf(k, b'));
      TipsThenBody(b);
      TipsThenBody(b');
    }
  }

  lemma TipsThenBody(b: BaseMessage)
    ensures EncodeBaseMessage(b) == EncodeTips(b.tips) + BaseBody(b)
  {
  }

  /** One leaf, one message: two messages with equal leaves have equal encodings, whatever their
      flags, or `LeafBreak` computes a collision from them. */
  lemma LeafBinding(k: Hash, m: Message, m': Message)
    requires HasBase(m) && HasBase(m')
    requires ToLeaf(k, m) == ToLeaf(k, m') && EncodeMessage(m) != EncodeMessage(m')
    ensures Breaks(k, LeafBreak(k, m, m'))
  {
    var h: Bytes, h': Bytes := HeaderHash(k, m.header), HeaderHash(k, m'.header);
    var c: Bytes, c': Bytes := ContentHash(k, m), ContentHash(k, m');
    if h + c == h' + c' {
      SplitConcat(h, c, h', c');
      if m.header != m'.header {
        PaddedHeaderInjective(m.header, m'.header);
      } else if m.header.flag == MESSAGE_FLAG_BASE {
        BaseBinding(k, m.baseMessage.value, m'.baseMessage.value);
      }
    }
  }

  lemma PaddedHeaderInjective(h: Header, h': Header)
    requires h != h'
    ensures PaddedHeader(h) != PaddedHeader(h')
  {
    HeaderRoundTrip(h, []);
    HeaderRoundTrip(h', []);
    assert EncodeHeader(h) + [] == EncodeHeader(h);
    assert EncodeHeader(h') + [] == EncodeHeader(h');
    if PaddedHeader(h) == PaddedHeader(h') {
      SplitConcat(Zeros(15), EncodeHeader(h), Zeros(15), EncodeHeader(h'));
    }
  }

  /** For messages as the system makes them, the leaf determines the message itself. */
  lemma LeafDeterminesMessage(k: Hash, m: Message, m': Message)
    requires WellFormed(m) && WellFormed(m') && ToLeaf(k, m) == ToLeaf(k, m') && m != m'
    ensures Breaks(k, LeafBreak(k, m, m'))
  {
    if EncodeMessage(m) == EncodeMessage(m') {
      EncodeMessageInjective(m, m');
    } else {
      LeafBinding(k, m, m');
    }
  }

  /** A message that went through the database has the leaf it had before. */
  lemma StoredLeaf(k: Hash, m: Message)
    requires WellFormed(m)
    ensures |EncodeMessage(m)| >= MESSAGE_HEADER_SIZE
    ensures DecodeMessage(EncodeMessage(m)).Ok?
    ensures var m' := DecodeMessage(EncodeMessage(m)).value; HasBase(m') && ToLeaf(k, m') == ToLeaf(k, m)
  {
    MessageRoundTrip(m);
  }
}
