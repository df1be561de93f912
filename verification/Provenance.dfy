/** Where the entities of a reachable store come from. */
module Provenance {
  import opened Basics
  import opened ByteCodec
  import opened Envelope
  import opened Text
  import opened AnchorIndexes
  import opened StoreInvariants
  import opened Conservation

  // ----- one call ------------------------------------------------------------------------

  /** The call is indexed at this position: the first test server skips every position 3 mod 4. */
  ghost predicate IndexedAt(mode: Mode, call: Call, stream: Bytes, s: nat) {
    CallAt(call, stream, s) && !(mode == DropEveryFourth && s % 4 == 3)
  }

  ghost predicate IndexedIn(mode: Mode, call: Call, stream: Bytes) {
    var f := DecodeEnvelope(call.payload);
    f.Ok? && f.value.streamId == stream && !(mode == DropEveryFourth && f.value.seqNo % 4 == 3)
  }

  /** The envelope kept of a payload: the payload itself, but at position 5 of the second test server, where byte 73 is
      complemented and no other byte touched. */
  ghost predicate KeptAs(mode: Mode, payload: Bytes, s: nat, envelope: Bytes) {
    if mode == BreakChainAtSeqFive && s == 5 then
      && |envelope| == |payload| == 105
      && envelope[73] as int + payload[73] as int == 255
      && forall k :: 0 <= k < 105 && k != 73 ==> envelope[k] == payload[k]
    else envelope == payload
  }

  /** These are the fields of an envelope kept of what the call posted. */
  ghost predicate FieldsFrom(keccak: Hash, mode: Mode, call: Call, stream: Bytes, s: nat, ciphertextDigest: Bytes,
                             prevEnvelopeDigest: Bytes, envelopeDigest: Bytes, envelope: Bytes)
  {
    && IndexedAt(mode, call, stream, s)
    && KeptAs(mode, call.payload, s, envelope)
    && DecodeEnvelope(envelope) == Ok(EnvelopeFields(1, stream, s, ciphertextDigest, prevEnvelopeDigest))
    && envelopeDigest == keccak(envelope)
  }

  ghost predicate AnchorFrom(keccak: Hash, mode: Mode, call: Call, id: string, a: Anchor) {
    && id == ToHex(a.stream) + "-" + Decimal(a.seqNo)
    && FieldsFrom(keccak, mode, call, a.stream, a.seqNo, a.ciphertextDigest, a.prevEnvelopeDigest, a.envelopeDigest, a.envelope)
    && a.submitter == call.from && a.txHash == call.txHash
    && a.blockNumber == call.blockNumber && a.blockTimestamp == call.timestamp
  }

  ghost predicate ConflictFrom(keccak: Hash, mode: Mode, call: Call, id: string, c: Conflict) {
    && id == ToHex(c.stream) + "-" + Decimal(c.seqNo) + "-" + ToHex(c.txHash)
    && FieldsFrom(keccak, mode, call, c.stream, c.seqNo, c.ciphertextDigest, c.prevEnvelopeDigest, c.envelopeDigest, c.envelope)
    && c.submitter == call.from && c.txHash == call.txHash && c.blockNumber == call.blockNumber
  }

  ghost predicate MalformedFrom(keccak: Hash, call: Call, id: string, m: Malformed) {
    && id == ToHex(call.txHash) + "-" + ToHex(keccak(call.payload))
    && (m.reason == WRONG_LENGTH <==> |call.payload| != 105)
    && (m.reason == UNSUPPORTED_VERSION <==> |call.payload| == 105 && call.payload[0] != 1)
    && m.payload == call.payload && m.payloadLength == |call.payload|
    && m.submitter == call.from && m.txHash == call.txHash && m.blockNumber == call.blockNumber
  }

  /** The call is indexed at the position with an envelope of this digest. */
  ghost predicate PostsDigest(keccak: Hash, mode: Mode, call: Call, stream: Bytes, s: nat, digest: Bytes) {
    IndexedAt(mode, call, stream, s) && exists e :: KeptAs(mode, call.payload, s, e) && keccak(e) == digest
  }

  lemma {:induction false} KeptOnce(mode: Mode, payload: Bytes, s: nat, e: Bytes, f: Bytes)
    requires KeptAs(mode, payload, s, e) && KeptAs(mode, payload, s, f)
    ensures e == f
  {
    if mode == BreakChainAtSeqFive && s == 5 {
      assert forall k :: 0 <= k < 105 ==> e[k] == f[k];
    }
  }

  lemma {:induction false} ReadFrom(keccak: Hash, call: Call, mode: Mode)
    ensures var p := Read(keccak, call, mode);
            match p
            case Position(a) => AnchorFrom(keccak, mode, call, AnchorId(a.stream, a.seqNo), a) && a.duplicateCount == 0
            case Undecodable(id, m) => MalformedFrom(keccak, call, id, m)
            case Skipped => true
    ensures Read(keccak, call, mode).Undecodable? <==> DecodeEnvelope(call.payload).Err?
  {
    if DecodeEnvelope(call.payload).Ok? {
      TamperedDecodes(call.payload);
    }
  }

  /** A post at a position, told apart by the id it is filed under. */
  ghost predicate PostsAt(p: Post, id: string) { p.Position? && AnchorId(p.anchor.stream, p.anchor.seqNo) == id }

  lemma {:induction false} ReadIndexed(keccak: Hash, call: Call, mode: Mode, stream: Bytes, s: nat)
    requires |stream| == 32
    ensures PostsAt(Read(keccak, call, mode), AnchorId(stream, s)) <==> IndexedAt(mode, call, stream, s)
  {
    hide AnchorId;
    var p := Read(keccak, call, mode);
    if p.Position? && AnchorId(p.anchor.stream, p.anchor.seqNo) == AnchorId(stream, s) {
      DecodedStreamId(call.payload);
      AnchorIdInjective(p.anchor.stream, p.anchor.seqNo, stream, s);
    }
  }

  lemma {:induction false} ReadDigest(keccak: Hash, call: Call, mode: Mode, stream: Bytes, s: nat, digest: Bytes)
    requires IndexedAt(mode, call, stream, s)
    ensures Read(keccak, call, mode).Position?
    ensures Read(keccak, call, mode).anchor.envelopeDigest == digest <==> PostsDigest(keccak, mode, call, stream, s, digest)
  {
    ReadFrom(keccak, call, mode);
    var a := Read(keccak, call, mode).anchor;
    assert KeptAs(mode, call.payload, s, a.envelope) && keccak(a.envelope) == a.envelopeDigest;
    if PostsDigest(keccak, mode, call, stream, s, digest) {
      var e :| KeptAs(mode, call.payload, s, e) && keccak(e) == digest;
      KeptOnce(mode, call.payload, s, e, a.envelope);
    }
  }

  // ----- anchors ---------------------------------------------------------------------------

  /** Post `j` is the first of the first `n` at the id. */
  ghost predicate FirstAt(posts: seq<Post>, n: nat, id: string, j: nat)
    requires n <= |posts|
  {
    j < n && PostsAt(posts[j], id) && forall i :: 0 <= i < j ==> !PostsAt(posts[i], id)
  }

  ghost predicate RepeatsAt(p: Post, id: string, digest: Bytes) {
    PostsAt(p, id) && p.anchor.envelopeDigest == digest
  }

  ghost function RepeatsOf(posts: seq<Post>, n: nat, id: string, j: nat, digest: Bytes): set<int>
    requires n <= |posts|
  {
    set k | j < k < n && RepeatsAt(posts[k], id, digest)
  }

  /** The store holds the anchor of post `j` at the id, with as many duplicates as repeated its envelope since. */
  ghost predicate StoredFrom(posts: seq<Post>, n: nat, id: string, j: nat)
    requires n <= |posts| && FirstAt(posts, n, id, j)
  {
    && id in Run(posts, n).anchors
    && Run(posts, n).anchors[id] ==
         posts[j].anchor.(duplicateCount := |RepeatsOf(posts, n, id, j, posts[j].anchor.envelopeDigest)|)
  }

  lemma {:induction false} NothingBefore(posts: seq<Post>, n: nat, id: string)
    requires n <= |posts| && id !in Run(posts, n).anchors
    ensures forall i :: 0 <= i < n ==> !PostsAt(posts[i], id)
  {
    hide AnchorId, Record;
    forall i | 0 <= i < n ensures !PostsAt(posts[i], id) {
      if PostsAt(posts[i], id) {
        RecordGrows(Run(posts, i), posts[i].anchor);
        StoredEnvelopesStay(posts, i + 1, n, id);
      }
    }
  }

  lemma {:induction false} RepeatsNext(posts: seq<Post>, k: nat, n: nat, id: string, j: nat, digest: Bytes)
    requires j < k && k + 1 == n <= |posts|
    ensures |RepeatsOf(posts, n, id, j, digest)| ==
              |RepeatsOf(posts, k, id, j, digest)|
              + if RepeatsAt(posts[k], id, digest) then 1 else 0
  {
    hide RepeatsAt;
    var before, after := RepeatsOf(posts, k, id, j, digest), RepeatsOf(posts, n, id, j, digest);
    if RepeatsAt(posts[k], id, digest) {
      forall i ensures i in after <==> i in before + {k} {}
      assert after == before + {k};
    } else {
      forall i ensures i in after <==> i in before {}
      assert after == before;
    }
  }

  lemma {:induction false} StoredNext(posts: seq<Post>, k: nat, n: nat, id: string, j: nat)
    requires k + 1 == n <= |posts| && FirstAt(posts, k, id, j) && StoredFrom(posts, k, id, j)
    ensures StoredFrom(posts, n, id, j)
  {
    hide AnchorId, ConflictId, RepeatsOf;
    RepeatsNext(posts, k, n, id, j, posts[j].anchor.envelopeDigest);
  }

  lemma {:induction false} StoredNow(keccak: Hash, posts: seq<Post>, k: nat, n: nat, id: string)
    requires k + 1 == n <= |posts| && PostsSound(keccak, posts)
    requires id !in Run(posts, k).anchors && id in Run(posts, n).anchors
    ensures FirstAt(posts, n, id, k) && StoredFrom(posts, n, id, k)
  {
    hide AnchorId, ConflictId;
    NothingBefore(posts, k, id);
    assert PostSound(keccak, posts[k]);
    assert RepeatsOf(posts, n, id, k, posts[k].anchor.envelopeDigest) == {};
  }

  lemma {:induction false} AnchorStored(keccak: Hash, posts: seq<Post>, n: nat, id: string) returns (j: nat)
    requires n <= |posts| && PostsSound(keccak, posts) && id in Run(posts, n).anchors
    ensures FirstAt(posts, n, id, j) && StoredFrom(posts, n, id, j)
  {
    hide StoredFrom, Apply;
    if n > 0 {
      if id in Run(posts, n - 1).anchors {
        j := AnchorStored(keccak, posts, n - 1, id);
        StoredNext(posts, n - 1, n, id, j);
      } else {
        j := n - 1;
        StoredNow(keccak, posts, n - 1, n, id);
      }
    }
  }

  /** The later calls among the first `n` that post the digest again. */
  ghost function Resubmissions(keccak: Hash, mode: Mode, calls: seq<Call>, n: nat, j: nat, a: Anchor): set<int>
    requires n <= |calls|
  {
    set k | j < k < n && PostsDigest(keccak, mode, calls[k], a.stream, a.seqNo, a.envelopeDigest)
  }

  lemma {:induction false} RepeatsAreResubmissions(keccak: Hash, calls: seq<Call>, mode: Mode, n: nat, j: nat, a: Anchor)
    requires n <= |calls| && |a.stream| == 32
    ensures RepeatsOf(Posts(keccak, calls, mode), n, AnchorId(a.stream, a.seqNo), j, a.envelopeDigest) ==
              Resubmissions(keccak, mode, calls, n, j, a)
  {
    hide AnchorId, Read, RepeatsAt, PostsDigest, IndexedAt;
    var posts, id := Posts(keccak, calls, mode), AnchorId(a.stream, a.seqNo);
    forall k | j < k < n
      ensures RepeatsAt(posts[k], id, a.envelopeDigest) <==>
                PostsDigest(keccak, mode, calls[k], a.stream, a.seqNo, a.envelopeDigest)
    {
      RepeatIsResubmission(keccak, calls[k], mode, a);
    }
  }

  lemma {:induction false} RepeatIsResubmission(keccak: Hash, call: Call, mode: Mode, a: Anchor)
    requires |a.stream| == 32
    ensures var p := Read(keccak, call, mode);
            RepeatsAt(p, AnchorId(a.stream, a.seqNo), a.envelopeDigest) <==>
              PostsDigest(keccak, mode, call, a.stream, a.seqNo, a.envelopeDigest)
  {
    hide AnchorId, Read;
    ReadIndexed(keccak, call, mode, a.stream, a.seqNo);
    if IndexedAt(mode, call, a.stream, a.seqNo) {
      ReadDigest(keccak, call, mode, a.stream, a.seqNo, a.envelopeDigest);
    }
  }

  /** Every stored anchor is that of the first call indexed at its position, and its duplicates are the later calls that
      posted the same digest there. */
  lemma {:induction false} AnchorsWerePosted(keccak: Hash, calls: seq<Call>, mode: Mode, n: nat, id: string) returns (j: nat)
    requires n <= |calls| && id in Run(Posts(keccak, calls, mode), n).anchors
    ensures var a := Run(Posts(keccak, calls, mode), n).anchors[id];
            && j < n && AnchorFrom(keccak, mode, calls[j], id, a)
            && (forall i :: 0 <= i < j ==> !IndexedAt(mode, calls[i], a.stream, a.seqNo))
            && a.duplicateCount == |Resubmissions(keccak, mode, calls, n, j, a)|
  {
    hide AnchorId, Run, Read, IndexedAt, Resubmissions, RepeatsOf;
    var posts := Posts(keccak, calls, mode);
    CallsReadSound(keccak, calls, mode);
    j := AnchorStored(keccak, posts, n, id);
    var a := Run(posts, n).anchors[id];
    ReadFrom(keccak, calls[j], mode);
    assert PostSound(keccak, posts[j]);
    forall i | 0 <= i < j ensures !IndexedAt(mode, calls[i], a.stream, a.seqNo) {
      ReadIndexed(keccak, calls[i], mode, a.stream, a.seqNo);
      assert !PostsAt(posts[i], id);
    }
    RepeatsAreResubmissions(keccak, calls, mode, n, j, a);
  }

  // ----- conflicts ---------------------------------------------------------------------------

  /** Where post `k` ends up: its position is taken, and it competes exactly if its digest is not the stored one. */
  lemma {:induction false} CompetesExactly(posts: seq<Post>, n: nat, k: nat)
    requires k < n <= |posts| && posts[k].Position?
    ensures var a := posts[k].anchor;
            && AnchorId(a.stream, a.seqNo) in Run(posts, n).anchors
            && (CompetesIn(Run(posts, k), a) <==>
                  a.envelopeDigest != Run(posts, n).anchors[AnchorId(a.stream, a.seqNo)].envelopeDigest)
  {
    hide AnchorId, ConflictId;
    var id := AnchorId(posts[k].anchor.stream, posts[k].anchor.seqNo);
    if id in Run(posts, k).anchors { StoredEnvelopesStay(posts, k, n, id); }
    RecordGrows(Run(posts, k), posts[k].anchor);
    StoredEnvelopesStay(posts, k + 1, n, id);
  }

  ghost predicate FiledAs(posts: seq<Post>, k: nat, id: string)
    requires k < |posts|
  {
    Competes(posts, k) && ConflictKey(posts[k]) == id
  }

  /** The entity is that of the last post filed under the id. */
  lemma {:induction false} ConflictStored(posts: seq<Post>, n: nat, id: string) returns (j: nat)
    requires n <= |posts| && id in Run(posts, n).conflicts
    ensures j < n && FiledAs(posts, j, id) && (forall k {:trigger FiledAs(posts, k, id)} :: j < k < n ==> !FiledAs(posts, k, id))
    ensures Run(posts, n).conflicts[id] == AsConflict(posts[j].anchor)
  {
    hide AnchorId, ConflictId;
    if n > 0 {
      if FiledAs(posts, n - 1, id) {
        j := n - 1;
      } else {
        j := ConflictStored(posts, n - 1, id);
      }
    }
  }

  /** Every conflict is that of the last call of its transaction that posted, at its position, another digest than the one
      stored. */
  lemma {:induction false} ConflictsWerePosted(keccak: Hash, calls: seq<Call>, mode: Mode, n: nat, id: string) returns (j: nat)
    requires n <= |calls| && id in Run(Posts(keccak, calls, mode), n).conflicts
    ensures var st := Run(Posts(keccak, calls, mode), n);
            var c := st.conflicts[id];
            var taken := ToHex(c.stream) + "-" + Decimal(c.seqNo);
            && j < n && ConflictFrom(keccak, mode, calls[j], id, c)
            && taken in st.anchors && st.anchors[taken].envelopeDigest != c.envelopeDigest
            && (forall k :: j < k < n && calls[k].txHash == c.txHash && IndexedAt(mode, calls[k], c.stream, c.seqNo) ==>
                  PostsDigest(keccak, mode, calls[k], c.stream, c.seqNo, st.anchors[taken].envelopeDigest))
  {
    hide Run, Read, IndexedAt, PostsDigest, CompetesIn;
    var posts := Posts(keccak, calls, mode);
    var st := Run(posts, n);
    j := ConflictStored(posts, n, id);
    var c := st.conflicts[id];
    ReadFrom(keccak, calls[j], mode);
    CompetesExactly(posts, n, j);
    CallsReadSound(keccak, calls, mode);
    assert PostSound(keccak, posts[j]);
    var stored := st.anchors[AnchorId(c.stream, c.seqNo)].envelopeDigest;
    forall k | j < k < n && calls[k].txHash == c.txHash && IndexedAt(mode, calls[k], c.stream, c.seqNo)
      ensures PostsDigest(keccak, mode, calls[k], c.stream, c.seqNo, stored)
    {
      LaterPostAgrees(keccak, calls, mode, n, k, c, id);
    }
  }

  lemma {:induction false} LaterPostAgrees(keccak: Hash, calls: seq<Call>, mode: Mode, n: nat, k: nat, c: Conflict, id: string)
    requires k < n <= |calls| && |c.stream| == 32
    requires id == ConflictId(c.stream, c.seqNo, c.txHash) && !FiledAs(Posts(keccak, calls, mode), k, id)
    requires calls[k].txHash == c.txHash && IndexedAt(mode, calls[k], c.stream, c.seqNo)
    ensures var st, taken := Run(Posts(keccak, calls, mode), n), AnchorId(c.stream, c.seqNo);
            taken in st.anchors && PostsDigest(keccak, mode, calls[k], c.stream, c.seqNo, st.anchors[taken].envelopeDigest)
  {
    hide Run, Read, AnchorId, ConflictId, PostsDigest, CompetesIn;
    var posts := Posts(keccak, calls, mode);
    ReadIndexed(keccak, calls[k], mode, c.stream, c.seqNo);
    ReadFrom(keccak, calls[k], mode);
    PositionPosted(keccak, calls[k], mode, c.stream, c.seqNo);
    CompetesExactly(posts, n, k);
    ReadDigest(keccak, calls[k], mode, c.stream, c.seqNo, Run(posts, n).anchors[AnchorId(c.stream, c.seqNo)].envelopeDigest);
  }

  lemma {:induction false} PositionPosted(keccak: Hash, call: Call, mode: Mode, stream: Bytes, s: nat)
    requires IndexedAt(mode, call, stream, s)
    ensures var p := Read(keccak, call, mode);
            p.Position? && p.anchor.stream == stream && p.anchor.seqNo == s && p.anchor.txHash == call.txHash
  {}

  // ----- malformed posts ---------------------------------------------------------------------

  lemma {:induction false} UndecodableKept(posts: seq<Post>, n: nat, id: string) returns (j: nat)
    requires n <= |posts| && id in Run(posts, n).malformed
    ensures j < n && posts[j].Undecodable? && posts[j].id == id && Run(posts, n).malformed[id] == posts[j].entity
    ensures forall k :: j < k < n && posts[k].Undecodable? ==> posts[k].id != id
  {
    hide AnchorId, ConflictId;
    if n > 0 {
      if posts[n - 1].Undecodable? && posts[n - 1].id == id {
        j := n - 1;
      } else {
        j := UndecodableKept(posts, n - 1, id);
      }
    }
  }

  /** Every malformed entity is that of the last call of its id. */
  lemma {:induction false} MalformedWerePosted(keccak: Hash, calls: seq<Call>, mode: Mode, n: nat, id: string) returns (j: nat)
    requires n <= |calls| && id in Run(Posts(keccak, calls, mode), n).malformed
    ensures j < n && MalformedFrom(keccak, calls[j], id, Run(Posts(keccak, calls, mode), n).malformed[id])
    ensures forall k :: j < k < n && DecodeEnvelope(calls[k].payload).Err? ==>
              ToHex(calls[k].txHash) + "-" + ToHex(keccak(calls[k].payload)) != id
  {
    hide Run, Read, DecodeEnvelope;
    var posts := Posts(keccak, calls, mode);
    j := UndecodableKept(posts, n, id);
    ReadFrom(keccak, calls[j], mode);
    forall k | j < k < n && DecodeEnvelope(calls[k].payload).Err?
      ensures ToHex(calls[k].txHash) + "-" + ToHex(keccak(calls[k].payload)) != id
    {
      ReadFrom(keccak, calls[k], mode);
      assert posts[k].Undecodable? && posts[k].id != id;
    }
  }

  // ----- every call leaves its entity ----------------------------------------------------------

  lemma {:induction false} KeysStay(posts: seq<Post>, m: nat, n: nat)
    requires m <= n <= |posts|
    ensures Run(posts, m).malformed.Keys <= Run(posts, n).malformed.Keys
    ensures Run(posts, m).conflicts.Keys <= Run(posts, n).conflicts.Keys
    ensures Run(posts, m).streams.Keys <= Run(posts, n).streams.Keys
    decreases n
  {
    hide AnchorId, ConflictId;
    if m < n { KeysStay(posts, m, n - 1); }
  }

  /** A call that does not decode leaves a malformed entity; one that is indexed finds its position taken or takes it, and
      if it posts another digest than the one stored it leaves a conflict. */
  ghost predicate LeavesTrace(keccak: Hash, mode: Mode, call: Call, st: Store) {
    match DecodeEnvelope(call.payload)
    case Err(_) => ToHex(call.txHash) + "-" + ToHex(keccak(call.payload)) in st.malformed
    case Ok(f) =>
      IndexedIn(mode, call, f.streamId) && f.seqNo >= 0 ==>
        var id := ToHex(f.streamId) + "-" + Decimal(f.seqNo);
        && id in st.anchors && f.streamId in st.streams
        && (PostsDigest(keccak, mode, call, f.streamId, f.seqNo, st.anchors[id].envelopeDigest)
            || id + "-" + ToHex(call.txHash) in st.conflicts)
  }

  lemma {:induction false} EveryCallLeavesItsTrace(keccak: Hash, calls: seq<Call>, mode: Mode, n: nat, k: nat)
    requires k < n <= |calls|
    ensures LeavesTrace(keccak, mode, calls[k], Run(Posts(keccak, calls, mode), n))
  {
    hide Run, PostsDigest;
    var posts := Posts(keccak, calls, mode);
    ReadFrom(keccak, calls[k], mode);
    PostApplied(posts, k, k + 1);
    KeysStay(posts, k + 1, n);
    match DecodeEnvelope(calls[k].payload) {
      case Err(_) =>
      case Ok(f) =>
        if IndexedIn(mode, calls[k], f.streamId) {
          var st := Run(posts, n);
          CompetesExactly(posts, n, k);
          ReadDigest(keccak, calls[k], mode, f.streamId, f.seqNo, st.anchors[AnchorId(f.streamId, f.seqNo)].envelopeDigest);
        }
    }
  }

  lemma {:induction false} PostApplied(posts: seq<Post>, k: nat, n: nat)
    requires k + 1 == n <= |posts|
    ensures posts[k].Undecodable? ==> posts[k].id in Run(posts, n).malformed
    ensures posts[k].Position? ==> posts[k].anchor.stream in Run(posts, n).streams
    ensures Competes(posts, k) ==> ConflictKey(posts[k]) in Run(posts, n).conflicts
  {
    hide AnchorId, ConflictId;
  }

  // ----- a stream's blocks -----------------------------------------------------------------------

  predicate PostsIn(p: Post, stream: Bytes) { p.Position? && p.anchor.stream == stream }

  /** Posts `i` and `j` are the first and the last of the stream, and its blocks are theirs. */
  ghost predicate Spans(posts: seq<Post>, n: nat, stream: Bytes, i: nat, j: nat)
    requires n <= |posts|
  {
    && i <= j < n && PostsIn(posts[i], stream) && PostsIn(posts[j], stream)
    && (forall k :: 0 <= k < i || j < k < n ==> !PostsIn(posts[k], stream))
    && stream in Run(posts, n).streams
    && Run(posts, n).streams[stream].firstBlock == posts[i].anchor.blockNumber
    && Run(posts, n).streams[stream].lastBlock == posts[j].anchor.blockNumber
  }

  lemma {:induction false} NoStreamNoPosts(posts: seq<Post>, n: nat, stream: Bytes)
    requires n <= |posts| && stream !in Run(posts, n).streams
    ensures forall k :: 0 <= k < n ==> !PostsIn(posts[k], stream)
  {
    forall k | 0 <= k < n ensures !PostsIn(posts[k], stream) {
      PostApplied(posts, k, k + 1);
      KeysStay(posts, k + 1, n);
    }
  }

  lemma {:induction false} SpanNow(posts: seq<Post>, k: nat, n: nat, stream: Bytes)
    requires k + 1 == n <= |posts| && stream !in Run(posts, k).streams && stream in Run(posts, n).streams
    ensures Spans(posts, n, stream, k, k)
  {
    hide AnchorId, ConflictId;
    NoStreamNoPosts(posts, k, stream);
  }

  lemma {:induction false} SpanNext(posts: seq<Post>, k: nat, n: nat, stream: Bytes, i: nat, j: nat)
    requires k + 1 == n <= |posts| && Spans(posts, k, stream, i, j)
    ensures Spans(posts, n, stream, i, if PostsIn(posts[k], stream) then k else j)
  {
    hide AnchorId, ConflictId;
  }

  lemma {:induction false} StreamSpans(posts: seq<Post>, n: nat, stream: Bytes) returns (i: nat, j: nat)
    requires n <= |posts| && stream in Run(posts, n).streams
    ensures Spans(posts, n, stream, i, j)
  {
    hide Spans, Apply;
    if n > 0 {
      if stream in Run(posts, n - 1).streams {
        i, j := StreamSpans(posts, n - 1, stream);
        SpanNext(posts, n - 1, n, stream, i, j);
        if PostsIn(posts[n - 1], stream) { j := n - 1; }
      } else {
        i, j := n - 1, n - 1;
        SpanNow(posts, n - 1, n, stream);
      }
    }
  }

  lemma {:induction false} ReadInStream(keccak: Hash, call: Call, mode: Mode, stream: Bytes)
    ensures PostsIn(Read(keccak, call, mode), stream) <==> IndexedIn(mode, call, stream)
  {}

  /** A stream's first and last block are those of the first and the last call indexed in it. */
  lemma {:induction false} StreamBlocks(keccak: Hash, calls: seq<Call>, mode: Mode, n: nat, stream: Bytes) returns (i: nat, j: nat)
    requires n <= |calls| && stream in Run(Posts(keccak, calls, mode), n).streams
    ensures i <= j < n && IndexedIn(mode, calls[i], stream) && IndexedIn(mode, calls[j], stream)
    ensures forall k :: 0 <= k < i || j < k < n ==> !IndexedIn(mode, calls[k], stream)
    ensures Run(Posts(keccak, calls, mode), n).streams[stream].firstBlock == calls[i].blockNumber
    ensures Run(Posts(keccak, calls, mode), n).streams[stream].lastBlock == calls[j].blockNumber
  {
    hide Run, PostsIn, IndexedIn;
    var posts := Posts(keccak, calls, mode);
    i, j := StreamSpans(posts, n, stream);
    forall k | 0 <= k < n ensures PostsIn(posts[k], stream) <==> IndexedIn(mode, calls[k], stream) {
      ReadInStream(keccak, calls[k], mode, stream);
    }
    PostBlock(keccak, calls[i], mode, stream);
    PostBlock(keccak, calls[j], mode, stream);
  }

  lemma {:induction false} PostBlock(keccak: Hash, call: Call, mode: Mode, stream: Bytes)
    requires PostsIn(Read(keccak, call, mode), stream)
    ensures Read(keccak, call, mode).anchor.blockNumber == call.blockNumber
  {}
}
