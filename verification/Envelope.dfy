/** The 105-byte anchor envelope of anchor-core/envelope.ts. */
module Envelope {
  import opened Basics
  import opened ByteCodec

  const ENVELOPE_VERSION: int := 1
  const ENVELOPE_LENGTH: int := 105

  datatype EnvelopeFields = EnvelopeFields(
    version: int, streamId: Bytes, seqNo: int, ciphertextDigest: Bytes, prevEnvelopeDigest: Bytes)

  datatype EncodeError = VersionOutOfRange | StreamIdLength | CiphertextDigestLength | PrevDigestLength | SeqRange

  datatype MalformedReason = WRONG_LENGTH | UNSUPPORTED_VERSION

  /** The concatenation itself, without the checks. */
  function Layout(f: EnvelopeFields): Bytes {
    [(f.version % 256) as byte] + f.streamId + (if f.seqNo >= 0 then BigEndian(8, f.seqNo) else [])
      + f.ciphertextDigest + f.prevEnvelopeDigest
  }

  function EncodeEnvelope(f: EnvelopeFields): (r: Result<Bytes, EncodeError>)
    ensures r.Ok? <==> Encodable(f)
    ensures r.Ok? ==> |r.value| == ENVELOPE_LENGTH
  {
    if f.version < 0 || f.version > 255 then Err(VersionOutOfRange)
    else if |f.streamId| != 32 then Err(StreamIdLength)
    else if |f.ciphertextDigest| != 32 then Err(CiphertextDigestLength)
    else if |f.prevEnvelopeDigest| != 32 then Err(PrevDigestLength)
    else if f.seqNo < 0 || f.seqNo >= U64_LIMIT then Err(SeqRange)
    else Ok(Layout(f))
  }

  predicate Encodable(f: EnvelopeFields) {
    && 0 <= f.version <= 255
    && |f.streamId| == |f.ciphertextDigest| == |f.prevEnvelopeDigest| == 32
    && 0 <= f.seqNo < U64_LIMIT
  }

  function DecodeEnvelope(payload: Bytes): Result<EnvelopeFields, MalformedReason> {
    if |payload| != ENVELOPE_LENGTH then Err(WRONG_LENGTH)
    else if payload[0] as int != ENVELOPE_VERSION then Err(UNSUPPORTED_VERSION)
    else Ok(EnvelopeFields(payload[0] as int, payload[1..33], FromBigEndian(payload[33..41]),
                           payload[41..73], payload[73..105]))
  }

  /** The encoder over its byte helpers: the shifted position and the buffer filled part by part. */
  method WriteEnvelope(f: EnvelopeFields) returns (r: Result<Bytes, EncodeError>)
    ensures r == EncodeEnvelope(f)
  {
    if f.version < 0 || f.version > 255 { return Err(VersionOutOfRange); }
    if |f.streamId| != 32 { return Err(StreamIdLength); }
    if |f.ciphertextDigest| != 32 { return Err(CiphertextDigestLength); }
    if |f.prevEnvelopeDigest| != 32 { return Err(PrevDigestLength); }
    var position := U64be(f.seqNo);
    if position.Err? { return Err(SeqRange); }
    var parts := [[f.version as byte], f.streamId, position.value, f.ciphertextDigest, f.prevEnvelopeDigest];
    var envelope := Concat(parts);
    assert parts[..4][..3] == parts[..3] && parts[..3][..2] == parts[..2] && parts[..2][..1] == parts[..1] && parts[..1][..0] == [];
    assert Flatten(parts[..1]) == [f.version as byte];
    assert Flatten(parts[..2]) == Flatten(parts[..1]) + f.streamId;
    assert Flatten(parts[..3]) == Flatten(parts[..2]) + position.value;
    assert Flatten(parts[..4]) == Flatten(parts[..3]) + f.ciphertextDigest;
    return Ok(envelope);
  }

  /** The decoder over the shift-and-or reader. */
  method ParseEnvelope(payload: Bytes) returns (r: Result<EnvelopeFields, MalformedReason>)
    ensures r == DecodeEnvelope(payload)
  {
    if |payload| != ENVELOPE_LENGTH { return Err(WRONG_LENGTH); }
    if payload[0] as int != ENVELOPE_VERSION { return Err(UNSUPPORTED_VERSION); }
    var position := ReadU64be(payload, 33);
    return Ok(EnvelopeFields(payload[0] as int, payload[1..33], position, payload[41..73], payload[73..105]));
  }

  /** Which refusal: the fields are checked in the order version, stream id, ciphertext digest, backward link, position. */
  lemma EncodeErrors(f: EnvelopeFields)
    ensures var r, version, stream, digest, prev :=
              EncodeEnvelope(f), 0 <= f.version <= 255, |f.streamId| == 32, |f.ciphertextDigest| == 32, |f.prevEnvelopeDigest| == 32;
            && (r == Err(VersionOutOfRange) <==> !version)
            && (r == Err(StreamIdLength) <==> version && !stream)
            && (r == Err(CiphertextDigestLength) <==> version && stream && !digest)
            && (r == Err(PrevDigestLength) <==> version && stream && digest && !prev)
            && (r == Err(SeqRange) <==> version && stream && digest && prev && !(0 <= f.seqNo < U64_LIMIT))
  {}

  /** Where each field sits in an envelope the encoder accepts. */
  lemma LayoutPositions(f: EnvelopeFields)
    requires Encodable(f)
    ensures var p := EncodeEnvelope(f).value;
            && |p| == 105 && p[0] as int == f.version && p[1..33] == f.streamId && p[33..41] == BigEndian(8, f.seqNo)
            && p[41..73] == f.ciphertextDigest && p[73..105] == f.prevEnvelopeDigest
  {
    var p := EncodeEnvelope(f).value;
    assert p[1..33] == f.streamId;
    assert p[33..41] == BigEndian(8, f.seqNo);
    assert p[41..73] == f.ciphertextDigest;
    assert p[73..105] == f.prevEnvelopeDigest;
  }

  /** Decode inverts encode on every version-1 tuple the encoder accepts. */
  lemma DecodeEncode(f: EnvelopeFields)
    requires Encodable(f) && f.version == ENVELOPE_VERSION
    ensures DecodeEnvelope(EncodeEnvelope(f).value) == Ok(f)
  {
    var p := EncodeEnvelope(f).value;
    U64Width();
    DecodeEncodeInt(8, f.seqNo);
    assert p[1..33] == f.streamId;
    assert p[33..41] == BigEndian(8, f.seqNo);
    assert p[41..73] == f.ciphertextDigest;
    assert p[73..105] == f.prevEnvelopeDigest;
  }

  /** Encode inverts decode on every accepted payload; acceptance is length 105 and first byte 1. */
  lemma EncodeDecode(payload: Bytes)
    ensures DecodeEnvelope(payload).Ok? <==> |payload| == 105 && payload[0] == 1
    ensures DecodeEnvelope(payload).Ok? ==>
              EncodeEnvelope(DecodeEnvelope(payload).value) == Ok(payload)
  {
    if DecodeEnvelope(payload).Ok? {
      U64Width();
      EncodeDecodeInt(payload[33..41]);
      var f := DecodeEnvelope(payload).value;
      assert payload == [payload[0]] + payload[1..33] + payload[33..41] + payload[41..73] + payload[73..105];
    }
  }

  /** Two accepted tuples with the same envelope are the same tuple. */
  lemma LayoutInjective(f: EnvelopeFields, g: EnvelopeFields)
    requires Encodable(f) && f.version == ENVELOPE_VERSION
    requires Encodable(g) && g.version == ENVELOPE_VERSION
    requires Layout(f) == Layout(g)
    ensures f == g
  {
    DecodeEncode(f);
    DecodeEncode(g);
  }

  /** keccak256 of the version-1 envelope rebuilt from a row's fields. */
  function RowDigest(keccak: Hash, streamId: Bytes, seqNo: int, ciphertextDigest: Bytes, prev: Bytes): Digest {
    keccak(Layout(EnvelopeFields(ENVELOPE_VERSION, streamId, seqNo, ciphertextDigest, prev)))
  }
}
