/** The subgraph store and the call handler of subgraph/src/anchor.ts. */
module AnchorIndexes {
  import opened Basics
  import opened ByteCodec
  import opened Envelope
  import opened Text

  /** A `postAnchor` call: its decoded argument and the transaction around it. */
  datatype Call = Call(payload: Bytes, from: Bytes, txHash: Digest, blockNumber: int, timestamp: int)

  datatype Mode = Honest | DropEveryFourth | BreakChainAtSeqFive

  datatype Stream = Stream(
    id: Bytes, anchorCount: nat, latestSeq: Option<nat>, headEnvelopeDigest: Option<Bytes>,
    hasConflicts: bool, conflictCount: nat, firstBlock: int, lastBlock: int)

  datatype Anchor = Anchor(
    stream: Bytes, seqNo: nat, ciphertextDigest: Bytes, prevEnvelopeDigest: Bytes, envelopeDigest: Bytes,
    envelope: Bytes, submitter: Bytes, txHash: Digest, blockNumber: int, blockTimestamp: int, duplicateCount: nat)

  datatype Conflict = Conflict(
    stream: Bytes, seqNo: nat, ciphertextDigest: Bytes, prevEnvelopeDigest: Bytes, envelopeDigest: Bytes,
    envelope: Bytes, submitter: Bytes, txHash: Digest, blockNumber: int)

  datatype Malformed = Malformed(
    reason: MalformedReason, payloadLength: nat, payload: Bytes, submitter: Bytes, txHash: Digest, blockNumber: int)

  /** The four entity tables, by id. */
  datatype Store = Store(
    streams: map<Bytes, Stream>, anchors: map<string, Anchor>, conflicts: map<string, Conflict>,
    malformed: map<string, Malformed>)

  const EMPTY: Store := Store(map[], map[], map[], map[])

  function AnchorId(stream: Bytes, seqNo: nat): string { ToHex(stream) + "-" + Decimal(seqNo) }

  function ConflictId(stream: Bytes, seqNo: nat, txHash: Digest): string { AnchorId(stream, seqNo) + "-" + ToHex(txHash) }

  function MalformedId(keccak: Hash, txHash: Digest, payload: Bytes): string { ToHex(txHash) + "-" + ToHex(keccak(payload)) }

  // ----- specification of one call -----------------------------------------------

  function Loaded(streams: map<Bytes, Stream>, id: Bytes, block: int): Stream {
    if id in streams then streams[id] else Stream(id, 0, None, None, false, 0, block, block)
  }

  function Withheld(mode: Mode, seqNo: nat): bool { mode == DropEveryFourth && seqNo % 4 == 3 }

  /** The backward link's first byte flipped. */
  function Tampered(payload: Bytes): Bytes
    requires |payload| == ENVELOPE_LENGTH
  {
    payload[73 := 255 - payload[73]]
  }

  /** What the mode makes of a well-formed payload before it is indexed. */
  function Served(mode: Mode, payload: Bytes, seqNo: nat): Bytes
    requires |payload| == ENVELOPE_LENGTH
  {
    if mode == BreakChainAtSeqFive && seqNo == 5 then Tampered(payload) else payload
  }

  function AsAnchor(keccak: Hash, call: Call, f: EnvelopeFields, envelope: Bytes): Anchor
    requires f.seqNo >= 0 && |envelope| == ENVELOPE_LENGTH
  {
    Anchor(f.streamId, f.seqNo, f.ciphertextDigest, envelope[73..105], keccak(envelope), envelope,
           call.from, call.txHash, call.blockNumber, call.timestamp, 0)
  }

  function AsConflict(a: Anchor): Conflict {
    Conflict(a.stream, a.seqNo, a.ciphertextDigest, a.prevEnvelopeDigest, a.envelopeDigest, a.envelope,
             a.submitter, a.txHash, a.blockNumber)
  }

  /** The first anchor at its position: stored, counted, and the stream's head if it is the highest. */
  function First(st: Store, a: Anchor): Store {
    var stream := Loaded(st.streams, a.stream, a.blockNumber);
    var counted := stream.(anchorCount := stream.anchorCount + 1, lastBlock := a.blockNumber);
    var stream' := if stream.latestSeq.None? || a.seqNo > stream.latestSeq.value
      then counted.(latestSeq := Some(a.seqNo), headEnvelopeDigest := Some(a.envelopeDigest)) else counted;
    st.(anchors := st.anchors[AnchorId(a.stream, a.seqNo) := a], streams := st.streams[a.stream := stream'])
  }

  /** The stored envelope once more: its counter goes up. */
  function Repeat(st: Store, a: Anchor): Store
    requires AnchorId(a.stream, a.seqNo) in st.anchors
  {
    var id := AnchorId(a.stream, a.seqNo);
    var stream := Loaded(st.streams, a.stream, a.blockNumber);
    st.(anchors := st.anchors[id := st.anchors[id].(duplicateCount := st.anchors[id].duplicateCount + 1)],
        streams := st.streams[a.stream := stream.(lastBlock := a.blockNumber)])
  }

  /** Another envelope at a taken position: kept beside the stored one, and the stream is flagged. */
  function Compete(st: Store, a: Anchor): Store {
    var stream := Loaded(st.streams, a.stream, a.blockNumber);
    st.(conflicts := st.conflicts[ConflictId(a.stream, a.seqNo, a.txHash) := AsConflict(a)],
        streams := st.streams[a.stream := stream.(hasConflicts := true, conflictCount := stream.conflictCount + 1,
                                                  lastBlock := a.blockNumber)])
  }

  function Record(st: Store, a: Anchor): Store {
    var id := AnchorId(a.stream, a.seqNo);
    if id !in st.anchors then First(st, a)
    else if st.anchors[id].envelopeDigest == a.envelopeDigest then Repeat(st, a)
    else Compete(st, a)
  }

  /** What a call amounts to for the store. */
  datatype Post = Undecodable(id: string, entity: Malformed) | Skipped | Position(anchor: Anchor)

  function Read(keccak: Hash, call: Call, mode: Mode): Post {
    match DecodeEnvelope(call.payload)
    case Err(reason) =>
      Undecodable(MalformedId(keccak, call.txHash, call.payload),
                  Malformed(reason, |call.payload|, call.payload, call.from, call.txHash, call.blockNumber))
    case Ok(f) =>
      if Withheld(mode, f.seqNo) then Skipped
      else Position(AsAnchor(keccak, call, f, Served(mode, call.payload, f.seqNo)))
  }

  function Apply(st: Store, post: Post): Store {
    match post
    case Undecodable(id, entity) => st.(malformed := st.malformed[id := entity])
    case Skipped => st
    case Position(a) => Record(st, a)
  }

  function Posts(keccak: Hash, calls: seq<Call>, mode: Mode): (posts: seq<Post>)
    ensures |posts| == |calls|
  {
    seq(|calls|, i requires 0 <= i < |calls| => Read(keccak, calls[i], mode))
  }

  /** The store after the first `n` posts. */
  function Run(posts: seq<Post>, n: nat): Store
    requires n <= |posts|
  {
    if n == 0 then EMPTY else Apply(Run(posts, n - 1), posts[n - 1])
  }

  // ----- the handler -----------------------------------------------------------------

  method SliceBytes(source: Bytes, start: nat, length: nat) returns (r: Bytes)
    requires start + length <= |source|
    ensures r == source[start..start + length]
  {
    var out := new byte[length](_ => 0);
    for i := 0 to length
      invariant out[..i] == source[start..start + i]
    {
      out[i] := source[start + i];
    }
    return out[..];
  }

  /** The mapping's own decoder multiplies and adds where the writer's shifts and ors; both read the same number. */
  method ReadU64BE(source: Bytes, start: nat) returns (value: nat)
    requires start + 8 <= |source|
    ensures value == FromBigEndian(source[start..start + 8])
  {
    value := 0;
    for i := 0 to 8
      invariant value == FromBigEndian(source[start..start + i])
    {
      assert source[start..start + i + 1][..i] == source[start..start + i];
      value := value * 256 + source[start + i] as nat;
    }
  }

  method FlipLink(payload: Bytes) returns (r: Bytes)
    requires |payload| == ENVELOPE_LENGTH
    ensures r == Tampered(payload)
  {
    var mutated := new byte[ENVELOPE_LENGTH](_ => 0);
    for i := 0 to ENVELOPE_LENGTH
      invariant mutated[..i] == payload[..i]
    {
      mutated[i] := payload[i];
    }
    assert Pow2(8) == 256;
    XorAllOnes(mutated[73] as nat, 8);
    mutated[73] := BitXor(mutated[73] as nat, 0xff) as byte;
    return mutated[..];
  }

  class AnchorStore {
    var streams: map<Bytes, Stream>
    var anchors: map<string, Anchor>
    var conflicts: map<string, Conflict>
    var malformed: map<string, Malformed>

    ghost function Contents(): Store
      reads this
    {
      Store(streams, anchors, conflicts, malformed)
    }

    constructor ()
      ensures Contents() == EMPTY
    {
      streams, anchors, conflicts, malformed := map[], map[], map[], map[];
    }

    method RecordMalformed(keccak: Hash, call: Call, reason: MalformedReason)
      modifies this
      ensures Contents() == old(Contents()).(malformed := old(malformed)[MalformedId(keccak, call.txHash, call.payload) :=
                Malformed(reason, |call.payload|, call.payload, call.from, call.txHash, call.blockNumber)])
    {
      var id := ToHex(call.txHash) + "-" + ToHex(keccak(call.payload));
      malformed := malformed[id :=
        Malformed(reason, |call.payload|, call.payload, call.from, call.txHash, call.blockNumber)];
    }

    method LoadOrCreateStream(streamId: Bytes, blockNumber: int) returns (stream: Stream)
      ensures stream == Loaded(streams, streamId, blockNumber)
    {
      if streamId in streams { return streams[streamId]; }
      return Stream(streamId, 0, None, None, false, 0, blockNumber, blockNumber);
    }

    /** Load, compare, save: the store becomes `Record` of the old one. */
    method SaveAnchor(a: Anchor)
      modifies this
      ensures Contents() == Record(old(Contents()), a)
    {
      var stream := LoadOrCreateStream(a.stream, a.blockNumber);
      var anchorId := ToHex(a.stream) + "-" + Decimal(a.seqNo);
      if anchorId !in anchors {
        anchors := anchors[anchorId := a];
        var latest := stream.latestSeq;
        stream := stream.(anchorCount := stream.anchorCount + 1);
        if latest.None? || a.seqNo > latest.value {
          stream := stream.(latestSeq := Some(a.seqNo), headEnvelopeDigest := Some(a.envelopeDigest));
        }
      } else if anchors[anchorId].envelopeDigest == a.envelopeDigest {
        var existing := anchors[anchorId];
        anchors := anchors[anchorId := existing.(duplicateCount := existing.duplicateCount + 1)];
      } else {
        var conflictId := anchorId + "-" + ToHex(a.txHash);
        conflicts := conflicts[conflictId := AsConflict(a)];
        stream := stream.(hasConflicts := true, conflictCount := stream.conflictCount + 1);
      }
      streams := streams[a.stream := stream.(lastBlock := a.blockNumber)];
    }

    method IndexAnchorCall(keccak: Hash, call: Call, mode: Mode)
      modifies this
      ensures Contents() == Apply(old(Contents()), Read(keccak, call, mode))
    {
      hide Record, MalformedId, FromBigEndian;
      var payload := call.payload;
      if |payload| != ENVELOPE_LENGTH {
        RecordMalformed(keccak, call, WRONG_LENGTH);
        return;
      }
      if payload[0] as int != ENVELOPE_VERSION {
        RecordMalformed(keccak, call, UNSUPPORTED_VERSION);
        return;
      }
      var streamId := SliceBytes(payload, 1, 32);
      var seqNo := ReadU64BE(payload, 33);
      var ciphertextDigest := SliceBytes(payload, 41, 32);
      var prevEnvelopeDigest := SliceBytes(payload, 73, 32);
      var envelope := payload;
      if mode == DropEveryFourth && seqNo % 4 == 3 { return; }
      if mode == BreakChainAtSeqFive && seqNo == 5 {
        envelope := FlipLink(payload);
        prevEnvelopeDigest := SliceBytes(envelope, 73, 32);
      }
      SaveAnchor(Anchor(streamId, seqNo, ciphertextDigest, prevEnvelopeDigest, keccak(envelope), envelope,
                        call.from, call.txHash, call.blockNumber, call.timestamp, 0));
    }

    /** graph-node delivers the calls in block order. */
    method IndexAll(keccak: Hash, calls: seq<Call>, mode: Mode)
      requires Contents() == EMPTY
      modifies this
      ensures Contents() == Run(Posts(keccak, calls, mode), |calls|)
    {
      hide Apply, Read;
      for i := 0 to |calls|
        invariant Contents() == Run(Posts(keccak, calls, mode), i)
      {
        IndexAnchorCall(keccak, calls[i], mode);
      }
    }
  }
}
