/**
 * Peer wire framing (`src/messages.rs`): the 68-byte handshake and the
 * length-prefixed messages of the peer protocol of BEP 3, as the client
 * writes and reads them.
 *
 * The message reader consumes an iterator of bytes; the model gives it the
 * sequence the iterator would produce. A Rust panic (`split_at` past the end,
 * `u32` underflow in a debug build) is the outcome `Panic`.
 */
module Messages {
  import opened RustTypes
  import opened Util

  const P_STR_LEN: byte := 19

  /** "BitTorrent protocol" as ASCII bytes. */
  const P_STR: Bytes := [66, 105, 116, 84, 111, 114, 114, 101, 110, 116, 32, 112, 114, 111, 116, 111, 99, 111, 108]

  const RESERVED_BYTES: Bytes := [0, 0, 0, 0, 0, 0, 0, 0]

  datatype Handshake = Handshake(infoHash: Bytes, peerId: Bytes)

  datatype HandshakeParseError = PStrLen | PStr | ReservedBytes | InfoHash | PeerId

  datatype Message =
    | Choke
    | UnChoke
    | Interested
    | NotInterested
    | Have(index: u32)
    | BitField(bf: Bytes)

  /**
   * Why a message could not be read. `PrefixLen` and `HaveIndex` (the source's
   * `Have`) are never produced: a short input panics in `split_at` first.
   */
  datatype MessageParseError = PrefixLen | Id(id: byte) | IdMissing | HaveIndex | Unimplemented(what: string)

  /** The message id BEP 3 gives each kind. */
  function MessageId(m: Message): byte
  {
    match m
    case Choke => 0
    case UnChoke => 1
    case Interested => 2
    case NotInterested => 3
    case Have(_) => 4
    case BitField(_) => 5
  }

  /** What follows the id: the index of `Have`, the bytes of `BitField`, nothing otherwise. */
  function Payload(m: Message): Bytes
  {
    match m
    case Have(index) => U32ToBe(index)
    case BitField(bf) => bf
    case _ => []
  }

  lemma AttachTwo(a: Bytes, b: Bytes)
    ensures AttachBytes([a, b]) == a + b
  {
    assert [a, b][1..] == [b];
    assert [b][1..] == [];
  }

  lemma AttachThree(a: Bytes, b: Bytes, c: Bytes)
    ensures AttachBytes([a, b, c]) == a + b + c
  {
    assert [a, b, c][1..] == [b, c];
    AttachTwo(b, c);
  }

  lemma AttachFive(a: Bytes, b: Bytes, c: Bytes, d: Bytes, e: Bytes)
    ensures AttachBytes([a, b, c, d, e]) == a + b + c + d + e
  {
    assert [a, b, c, d, e][1..] == [b, c, d, e];
    assert [b, c, d, e][1..] == [c, d, e];
    AttachThree(c, d, e);
  }

  // ---------------------------------------------------------------------------
  // Messages
  // ---------------------------------------------------------------------------

  /**
   * `Message::serialize`. Choke, UnChoke, Interested and NotInterested put
   * their id in the four length bytes and follow it with a 1; `Have` and
   * `BitField` are a big-endian length of what follows, the id, and the
   * payload. The bitfield length is cast to `u32` (truncating) and then
   * incremented, which overflows, and panics, at `u32::MAX`.
   */
  function Serialize(m: Message): (r: Outcome<Bytes>)
    ensures r.Panic? <==> m.BitField? && |m.bf| % U32_LIMIT == U32_MAX
    ensures r.Value? ==> |r.value| >= 5
    ensures r.Value? && (m.Have? || m.BitField?) ==> r.value[4] == MessageId(m)
    ensures r.Value? && m.BitField? ==> r.value[5..] == m.bf
  {
    match m
    case Choke => Value(AttachBytes([U32ToBe(0), [1]]))
    case UnChoke => Value(AttachBytes([U32ToBe(1), [1]]))
    case Interested => Value(AttachBytes([U32ToBe(2), [1]]))
    case NotInterested => Value(AttachBytes([U32ToBe(3), [1]]))
    case Have(index) =>
      AttachThree(U32ToBe(5), [4], U32ToBe(index));
      Value(AttachBytes([U32ToBe(5), [4], U32ToBe(index)]))
    case BitField(bf) =>
      var l := |bf| % U32_LIMIT;
      if l + 1 == U32_LIMIT then Panic
      else
        AttachThree(U32ToBe(l + 1), [5], bf);
        assert (U32ToBe(l + 1) + [5] + bf)[5..] == bf;
        Value(AttachBytes([U32ToBe(l + 1), [5], bf]))
  }

  /**
   * `Message::new` on the bytes the iterator yields: a four-byte length
   * (panicking if fewer arrive), an id byte, and for `Have` a four-byte index
   * (panicking likewise), for `BitField` up to `length - 1` further bytes
   * (panicking when the length is 0).
   */
  function New(bytes: Bytes): (r: Outcome<Result<Message, MessageParseError>>)
    ensures |bytes| < 4 ==> r.Panic?
    ensures |bytes| == 4 ==> r == Value(Err(IdMissing))
    ensures r.Value? && r.value.Ok? ==> |bytes| >= 5 && MessageId(r.value.value) == bytes[4]
    ensures r.Value? && r.value.Ok? && r.value.value.BitField? ==> r.value.value.bf <= bytes[5..]
  {
    if |bytes| < 4 then Panic
    else
      var prefixLen := ReadBeU32(bytes[..4]).0;
      if |bytes| == 4 then Value(Err(IdMissing))
      else
        var id := bytes[4];
        var rest := bytes[5..];
        if id == 0 then Value(Ok(Choke))
        else if id == 1 then Value(Ok(UnChoke))
        else if id == 2 then Value(Ok(Interested))
        else if id == 3 then Value(Ok(NotInterested))
        else if id == 4 then
          if |rest| < 4 then Panic else Value(Ok(Have(ReadBeU32(rest[..4]).0)))
        else if id == 5 then
          if prefixLen == 0 then Panic
          else
            var bitfieldLen := prefixLen - 1;
            Value(Ok(BitField(if |rest| <= bitfieldLen then rest else rest[..bitfieldLen])))
        else if id == 6 then Value(Err(Unimplemented("6 - request")))
        else if id == 7 then Value(Err(Unimplemented("7 - request")))
        else if id == 8 then Value(Err(Unimplemented("8 - request")))
        else Value(Err(Id(id)))
  }

  /** `Have` is read back from its bytes, whatever follows them on the wire. */
  lemma HaveRoundTrip(index: u32, rest: Bytes)
    ensures Serialize(Have(index)).Value?
    ensures New(Serialize(Have(index)).value + rest) == Value(Ok(Have(index)))
  {
    var bytes := Serialize(Have(index)).value + rest;
    AttachThree(U32ToBe(5), [4], U32ToBe(index));
    assert bytes[..4] == U32ToBe(5);
    assert bytes[5..][..4] == U32ToBe(index);
    U32FromBeToBe(5);
    U32FromBeToBe(index);
  }

  /** A bitfield message takes `prefix - 1` bytes after its id, or as many as arrived. */
  lemma ReadBitField(prefix: u32, payload: Bytes)
    requires 1 <= prefix
    ensures New(U32ToBe(prefix) + [5] + payload)
         == Value(Ok(BitField(if |payload| <= prefix - 1 then payload else payload[..prefix - 1])))
  {
    var bytes := U32ToBe(prefix) + [5] + payload;
    assert bytes[..4] == U32ToBe(prefix);
    U32FromBeToBe(prefix);
    assert bytes[5..] == payload;
  }

  /** The bytes of a `Have`: length 5, id 4, the index. */
  lemma SerializedHave(index: u32)
    ensures Serialize(Have(index)) == Value(U32ToBe(5) + [4] + U32ToBe(index))
  {
    AttachThree(U32ToBe(5), [4], U32ToBe(index));
  }

  /** The bytes of a `BitField` short enough not to panic: length `|bf| + 1`, id 5, the bits. */
  lemma SerializedBitField(bf: Bytes)
    requires |bf| < U32_MAX
    ensures Serialize(BitField(bf)) == Value(U32ToBe(|bf| + 1) + [5] + bf)
  {
    assert |bf| % U32_LIMIT == |bf|;
    AttachThree(U32ToBe(|bf| + 1), [5], bf);
  }

  /** A bitfield is read back from its bytes, whatever follows them on the wire. */
  lemma BitFieldRoundTrip(bf: Bytes, rest: Bytes)
    requires |bf| < U32_MAX
    ensures Serialize(BitField(bf)).Value?
    ensures New(Serialize(BitField(bf)).value + rest) == Value(Ok(BitField(bf)))
  {
    var l := |bf|;
    SerializedBitField(bf);
    var payload := bf + rest;
    assert Serialize(BitField(bf)).value + rest == U32ToBe(l + 1) + [5] + payload;
    ReadBitField(l + 1, payload);
    if rest == [] {
      assert payload == bf;
    } else {
      assert payload[..l] == bf;
    }
  }

  /**
   * Choke, UnChoke, Interested and NotInterested all carry the byte 1 where the
   * id belongs, so every one of them is read back as `UnChoke`.
   */
  lemma ChokeFamilyReadsAsUnChoke(m: Message, rest: Bytes)
    requires m.Choke? || m.UnChoke? || m.Interested? || m.NotInterested?
    ensures Serialize(m).Value?
    ensures New(Serialize(m).value + rest) == Value(Ok(UnChoke))
  {
    var bytes := Serialize(m).value + rest;
    AttachTwo(U32ToBe(MessageId(m)), [1]);
    assert bytes[4] == 1;
  }

  /** ... so for Choke, Interested and NotInterested the length prefix does not count the bytes that follow it. */
  lemma ChokeFamilyPrefixIsNotLength(m: Message)
    requires m.Choke? || m.Interested? || m.NotInterested?
    ensures Serialize(m).Value? && |Serialize(m).value| == 5
    ensures U32FromBe(Serialize(m).value[..4]) == MessageId(m) != 1
  {
    var bytes := Serialize(m).value;
    AttachTwo(U32ToBe(MessageId(m)), [1]);
    assert bytes[..4] == U32ToBe(MessageId(m));
    U32FromBeToBe(MessageId(m));
  }

  /** The framing of BEP 3: a big-endian count of the bytes after it, the id, the payload. */
  function SerializeBep3(m: Message): (r: Outcome<Bytes>)
    ensures r.Panic? <==> m.BitField? && |m.bf| % U32_LIMIT == U32_MAX
  {
    match m
    case Have(_) => Serialize(m)
    case BitField(_) => Serialize(m)
    case _ => Value(AttachBytes([U32ToBe(1), [MessageId(m)]]))
  }

  /** A frame's first four bytes read back as the length it was written with. */
  lemma FramePrefix(n: u32, id: byte, payload: Bytes)
    ensures |U32ToBe(n) + [id] + payload| == 5 + |payload|
    ensures U32FromBe((U32ToBe(n) + [id] + payload)[..4]) == n
  {
    assert (U32ToBe(n) + [id] + payload)[..4] == U32ToBe(n);
    U32FromBeToBe(n);
  }

  /** Under the BEP 3 framing a message is its length, its id and its payload. */
  lemma Bep3Frame(m: Message)
    requires !(m.BitField? && |m.bf| >= U32_MAX)
    ensures SerializeBep3(m).Value?
    ensures SerializeBep3(m).value == U32ToBe(1 + |Payload(m)|) + [MessageId(m)] + Payload(m)
  {
    match m {
      case Have(index) => SerializedHave(index);
      case BitField(bf) => SerializedBitField(bf);
      case _ =>
        AttachTwo(U32ToBe(1), [MessageId(m)]);
        assert U32ToBe(1) + [MessageId(m)] + [] == U32ToBe(1) + [MessageId(m)];
    }
  }

  /** Under the BEP 3 framing the length prefix counts exactly the bytes that follow it. */
  lemma Bep3PrefixIsLength(m: Message)
    requires !(m.BitField? && |m.bf| >= U32_MAX)
    ensures SerializeBep3(m).Value? && |SerializeBep3(m).value| >= 4
    ensures U32FromBe(SerializeBep3(m).value[..4]) == |SerializeBep3(m).value| - 4
  {
    Bep3Frame(m);
    FramePrefix(1 + |Payload(m)|, MessageId(m), Payload(m));
  }

  /** Under the BEP 3 framing every message is read back as itself. */
  lemma Bep3RoundTrip(m: Message, rest: Bytes)
    requires !(m.BitField? && |m.bf| >= U32_MAX)
    ensures SerializeBep3(m).Value?
    ensures New(SerializeBep3(m).value + rest) == Value(Ok(m))
  {
    match m {
      case Have(index) => HaveRoundTrip(index, rest);
      case BitField(bf) => BitFieldRoundTrip(bf, rest);
      case _ =>
        var bytes := SerializeBep3(m).value + rest;
        AttachTwo(U32ToBe(1), [MessageId(m)]);
        assert bytes[4] == MessageId(m);
    }
  }

  /** Ids 6 to 8 (request, piece, cancel) are not implemented; an id above 8 is unknown. */
  lemma UnknownIds(bytes: Bytes)
    requires |bytes| >= 5 && bytes[4] >= 6
    ensures bytes[4] <= 8 ==> New(bytes).Value? && New(bytes).value.Err? && New(bytes).value.error.Unimplemented?
    ensures bytes[4] > 8 ==> New(bytes) == Value(Err(Id(bytes[4])))
  {
  }

  /** A `Have` whose index is cut short panics rather than reporting `HaveIndex`. */
  lemma ShortHavePanics(bytes: Bytes)
    requires 5 <= |bytes| < 9 && bytes[4] == 4
    ensures New(bytes) == Panic
  {
  }

  /** A bitfield message with a zero length underflows `prefix_len - 1` and panics. */
  lemma ZeroLengthBitFieldPanics(payload: Bytes)
    ensures New(U32ToBe(0) + [5] + payload) == Panic
  {
    var bytes := U32ToBe(0) + [5] + payload;
    assert bytes[..4] == U32ToBe(0);
    U32FromBeToBe(0);
  }

  // ---------------------------------------------------------------------------
  // Handshake
  // ---------------------------------------------------------------------------

  /** `Handshake::serialize`: pstrlen, pstr, eight reserved zero bytes, info hash, peer id. */
  function SerializeHandshake(h: Handshake): (r: Bytes)
    ensures r == [P_STR_LEN] + P_STR + RESERVED_BYTES + h.infoHash + h.peerId
    ensures |r| == 28 + |h.infoHash| + |h.peerId|
  {
    AttachFive([P_STR_LEN], P_STR, RESERVED_BYTES, h.infoHash, h.peerId);
    AttachBytes([[P_STR_LEN], P_STR, RESERVED_BYTES, h.infoHash, h.peerId])
  }

  /**
   * `Handshake::new`: reads the protocol-string length, then takes the protocol
   * string (which must be valid UTF-8), eight reserved bytes, a 20-byte info hash
   * and a 20-byte peer id, failing on the first that is missing. Neither the
   * protocol string's value nor the reserved bytes are checked.
   */
  function NewHandshake(bytes: Bytes, utf8: Utf8Check): (r: Result<Handshake, HandshakeParseError>)
    ensures r.Ok? ==> |r.value.infoHash| == 20 && |r.value.peerId| == 20
    ensures r.Ok? <==> |bytes| >= 1 && |bytes| >= 49 + bytes[0] as int && utf8(bytes[1..1 + bytes[0] as int])
  {
    if |bytes| == 0 then Err(PStrLen)
    else
      var len := 1 + bytes[0] as int;
      if len > |bytes| || !utf8(bytes[1..len]) then Err(PStr)
      else if len + 8 > |bytes| then Err(ReservedBytes)
      else if len + 8 + 20 > |bytes| then Err(InfoHash)
      else if len + 8 + 20 + 20 > |bytes| then Err(PeerId)
      else Ok(Handshake(bytes[len + 8..len + 8 + 20], bytes[len + 8 + 20..len + 8 + 20 + 20]))
  }

  /** A handshake with 20-byte fields is 68 bytes long and is read back, whatever follows it. */
  lemma HandshakeRoundTrip(h: Handshake, utf8: Utf8Check, rest: Bytes)
    requires |h.infoHash| == 20 && |h.peerId| == 20 && utf8(P_STR)
    ensures |SerializeHandshake(h)| == 68
    ensures NewHandshake(SerializeHandshake(h) + rest, utf8) == Ok(h)
  {
    var bytes := SerializeHandshake(h) + rest;
    assert bytes[1..20] == P_STR;
    assert bytes[28..48] == h.infoHash;
    assert bytes[48..68] == h.peerId;
  }

  /** The error reported for a handshake cut off after `n` of its 68 bytes. */
  function FirstMissing(n: nat): HandshakeParseError
  {
    if n == 0 then PStrLen
    else if n < 20 then PStr
    else if n < 28 then ReservedBytes
    else if n < 48 then InfoHash
    else PeerId
  }

  /** A truncated handshake fails on its first missing segment, in wire order. */
  lemma TruncatedHandshake(h: Handshake, utf8: Utf8Check, n: nat)
    requires |h.infoHash| == 20 && |h.peerId| == 20 && utf8(P_STR) && n < 68
    ensures NewHandshake(SerializeHandshake(h)[..n], utf8) == Err(FirstMissing(n))
  {
    var bytes := SerializeHandshake(h)[..n];
    if n >= 20 {
      assert bytes[1..20] == P_STR;
    }
  }

  /** Any protocol string of length 19 that is valid UTF-8, and any reserved bytes, are accepted. */
  lemma HandshakeIgnoresProtocol(bytes: Bytes, utf8: Utf8Check)
    requires |bytes| >= 68 && bytes[0] == 19 && utf8(bytes[1..20])
    ensures NewHandshake(bytes, utf8) == Ok(Handshake(bytes[28..48], bytes[48..68]))
  {
  }
}
