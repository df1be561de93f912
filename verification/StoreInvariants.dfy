/** What every reachable store satisfies, whatever was posted. */
module StoreInvariants {
  import opened Basics
  import opened ByteCodec
  import opened Envelope
  import opened Text
  import opened AnchorIndexes

  // ----- ids -------------------------------------------------------------------------

  lemma {:induction false} AnchorIdInjective(s: Bytes, m: nat, t: Bytes, n: nat)
    requires |s| == |t| && AnchorId(s, m) == AnchorId(t, n)
    ensures s == t && m == n
  {
    var k := |ToHex(s)|;
    assert AnchorId(s, m)[..k] == ToHex(s) && AnchorId(t, n)[..k] == ToHex(t);
    assert AnchorId(s, m)[k + 1..] == Decimal(m) && AnchorId(t, n)[k + 1..] == Decimal(n);
    ToHexInjective(s, t);
    DecimalValue(m);
    DecimalValue(n);
  }

  lemma {:induction false} ConflictIdInjective(s: Bytes, m: nat, x: Digest, t: Bytes, n: nat, y: Digest)
    requires ConflictId(s, m, x) == ConflictId(t, n, y)
    ensures x == y && (|s| == |t| ==> s == t && m == n)
  {
    var a, b := ConflictId(s, m, x), ConflictId(t, n, y);
    assert a[|a| - 66..] == ToHex(x) && b[|b| - 66..] == ToHex(y);
    assert a[..|a| - 67] == AnchorId(s, m) && b[..|b| - 67] == AnchorId(t, n);
    ToHexInjective(x, y);
    if |s| == |t| { AnchorIdInjective(s, m, t, n); }
  }

  lemma {:induction false} MalformedIdInjective(keccak: Hash, x: Digest, p: Bytes, y: Digest, q: Bytes)
    requires MalformedId(keccak, x, p) == MalformedId(keccak, y, q)
    ensures x == y
  {
    var a, b := MalformedId(keccak, x, p), MalformedId(keccak, y, q);
    assert a[..66] == ToHex(x) && b[..66] == ToHex(y);
    ToHexInjective(x, y);
  }

  // ----- the invariant ---------------------------------------------------------------------

  /** The ids of one stream's anchors. */
  ghost function AnchorsOf(st: Store, stream: Bytes): set<string> {
    set id | id in st.anchors && st.anchors[id].stream == stream
  }

  /** An anchor sits at the id of its position and its fields are those of the envelope it keeps. */
  ghost predicate AnchorSound(keccak: Hash, id: string, a: Anchor) {
    && id == AnchorId(a.stream, a.seqNo)
    && DecodeEnvelope(a.envelope) ==
         Ok(EnvelopeFields(ENVELOPE_VERSION, a.stream, a.seqNo, a.ciphertextDigest, a.prevEnvelopeDigest))
    && a.envelopeDigest == keccak(a.envelope)
  }

  /** A stream's totals: its count, its head and its conflict flag. */
  ghost predicate StreamSound(st: Store, id: Bytes, s: Stream) {
    && s.id == id
    && s.anchorCount == |AnchorsOf(st, id)|
    && s.latestSeq.Some?
    && AnchorId(id, s.latestSeq.value) in st.anchors
    && s.headEnvelopeDigest == Some(st.anchors[AnchorId(id, s.latestSeq.value)].envelopeDigest)
    && (forall k :: k in AnchorsOf(st, id) ==> st.anchors[k].seqNo <= s.latestSeq.value)
    && (s.hasConflicts <==> s.conflictCount > 0)
  }

  ghost predicate AnchorsSound(keccak: Hash, st: Store) {
    forall id {:trigger AnchorSound(keccak, id, st.anchors[id])} :: id in st.anchors ==>
      AnchorSound(keccak, id, st.anchors[id]) && st.anchors[id].stream in st.streams
  }

  ghost predicate StreamsSound(st: Store) {
    forall id {:trigger StreamSound(st, id, st.streams[id])} :: id in st.streams ==> StreamSound(st, id, st.streams[id])
  }

  ghost predicate Sound(keccak: Hash, st: Store) {
    AnchorsSound(keccak, st) && StreamsSound(st)
  }

  lemma {:induction false} TamperedDecodes(payload: Bytes)
    requires DecodeEnvelope(payload).Ok?
    ensures DecodeEnvelope(Tampered(payload)) ==
              Ok(DecodeEnvelope(payload).value.(prevEnvelopeDigest := Tampered(payload)[73..105]))
  {
    var p, q := payload, Tampered(payload);
    assert q[0] == p[0] && q[1..33] == p[1..33] && q[33..41] == p[33..41] && q[41..73] == p[41..73];
  }

  /** Every anchor a call gives rise to, in whatever mode, is sound, fresh and in a 32-byte stream. */
  ghost predicate PostSound(keccak: Hash, p: Post) {
    p.Position? ==>
      && AnchorSound(keccak, AnchorId(p.anchor.stream, p.anchor.seqNo), p.anchor)
      && |p.anchor.stream| == 32 && p.anchor.duplicateCount == 0
  }

  ghost predicate PostsSound(keccak: Hash, posts: seq<Post>) {
    forall i :: 0 <= i < |posts| ==> PostSound(keccak, posts[i])
  }

  lemma {:induction false} ReadSound(keccak: Hash, call: Call, mode: Mode)
    ensures PostSound(keccak, Read(keccak, call, mode))
  {
    if DecodeEnvelope(call.payload).Ok? { TamperedDecodes(call.payload); }
  }

  lemma {:induction false} CallsReadSound(keccak: Hash, calls: seq<Call>, mode: Mode)
    ensures PostsSound(keccak, Posts(keccak, calls, mode))
  {
    forall i | 0 <= i < |calls| ensures PostSound(keccak, Posts(keccak, calls, mode)[i]) { ReadSound(keccak, calls[i], mode); }
  }

  lemma {:induction false} DecodedStreamId(payload: Bytes)
    ensures DecodeEnvelope(payload).Ok? ==> |DecodeEnvelope(payload).value.streamId| == 32
  {}

  /** `b` is `a` with its duplicate counter perhaps advanced. */
  ghost predicate Kept(a: Anchor, b: Anchor) {
    b == a.(duplicateCount := b.duplicateCount) && a.duplicateCount <= b.duplicateCount
  }

  /** From `st` to `st'` no anchor is lost or rewritten, and at most `a` is new. */
  ghost predicate Grows(st: Store, st': Store, a: Anchor) {
    && (forall k :: k in st.anchors ==> k in st'.anchors && Kept(st.anchors[k], st'.anchors[k]))
    && (forall k :: k in st'.anchors ==> k in st.anchors || (k == AnchorId(a.stream, a.seqNo) && st'.anchors[k] == a))
    && AnchorId(a.stream, a.seqNo) in st'.anchors
    && (forall id :: id in st'.streams ==> id == a.stream || (id in st.streams && st'.streams[id] == st.streams[id]))
    && a.stream in st'.streams && forall id :: id in st.streams ==> id in st'.streams
  }

  lemma {:induction false} FirstGrows(st: Store, a: Anchor)
    requires AnchorId(a.stream, a.seqNo) !in st.anchors
    ensures Grows(st, First(st, a), a)
  {
    hide AnchorId;
  }

  lemma {:induction false} RepeatGrows(st: Store, a: Anchor)
    requires AnchorId(a.stream, a.seqNo) in st.anchors
    ensures Grows(st, Repeat(st, a), a)
  {
    hide AnchorId;
  }

  lemma {:induction false} CompeteGrows(st: Store, a: Anchor)
    requires AnchorId(a.stream, a.seqNo) in st.anchors
    ensures Grows(st, Compete(st, a), a)
  {
    hide AnchorId, ConflictId;
  }

  lemma {:induction false} RecordGrows(st: Store, a: Anchor)
    ensures Grows(st, Record(st, a), a)
  {
    hide Grows, AnchorId, ConflictId, First, Repeat, Compete;
    if AnchorId(a.stream, a.seqNo) !in st.anchors {
      FirstGrows(st, a);
    } else if st.anchors[AnchorId(a.stream, a.seqNo)].envelopeDigest == a.envelopeDigest {
      RepeatGrows(st, a);
    } else {
      CompeteGrows(st, a);
    }
  }

  lemma {:induction false} AnchorsOfAfter(keccak: Hash, st: Store, st': Store, a: Anchor, id: Bytes)
    requires Sound(keccak, st) && |a.stream| == 32 && Grows(st, st', a)
    ensures forall k :: k in AnchorsOf(st', id) <==>
              k in AnchorsOf(st, id) || (id == a.stream && k == AnchorId(a.stream, a.seqNo))
  {
    hide AnchorId, ConflictId;
    var key := AnchorId(a.stream, a.seqNo);
    if key in st.anchors { PositionOfId(keccak, st, a, key); }
    forall k ensures k in AnchorsOf(st', id) <==> k in AnchorsOf(st, id) || (id == a.stream && k == key) {
      if k in st.anchors { assert Kept(st.anchors[k], st'.anchors[k]); }
    }
  }

  lemma {:induction false} PositionOfId(keccak: Hash, st: Store, a: Anchor, key: string)
    requires Sound(keccak, st) && |a.stream| == 32
    requires key == AnchorId(a.stream, a.seqNo) && key in st.anchors
    ensures st.anchors[key].stream == a.stream && st.anchors[key].seqNo == a.seqNo
  {
    assert AnchorSound(keccak, key, st.anchors[key]);
    DecodedStreamId(st.anchors[key].envelope);
    AnchorIdInjective(st.anchors[key].stream, st.anchors[key].seqNo, a.stream, a.seqNo);
  }

  /** A stream whose totals and set of anchors stay is still sound. */
  lemma {:induction false} StreamStaysSound(st: Store, st': Store, a: Anchor, id: Bytes)
    requires id in st.streams && id in st'.streams && StreamSound(st, id, st.streams[id])
    requires Grows(st, st', a) && AnchorsOf(st', id) == AnchorsOf(st, id)
    requires var s, s' := st.streams[id], st'.streams[id];
             && s'.id == s.id && s'.anchorCount == s.anchorCount && s'.latestSeq == s.latestSeq
             && s'.headEnvelopeDigest == s.headEnvelopeDigest && (s'.hasConflicts <==> s'.conflictCount > 0)
    ensures StreamSound(st', id, st'.streams[id])
  {
    var head := AnchorId(id, st.streams[id].latestSeq.value);
    assert Kept(st.anchors[head], st'.anchors[head]);
    forall k | k in AnchorsOf(st', id) ensures st'.anchors[k].seqNo <= st'.streams[id].latestSeq.value {
      assert k in AnchorsOf(st, id) && Kept(st.anchors[k], st'.anchors[k]);
    }
  }

  /** A new position: the count goes up by one and the head moves exactly if the position is the highest. */
  lemma {:induction false} FirstStreamSound(keccak: Hash, st: Store, a: Anchor)
    requires Sound(keccak, st) && |a.stream| == 32 && AnchorId(a.stream, a.seqNo) !in st.anchors
    ensures StreamSound(First(st, a), a.stream, First(st, a).streams[a.stream])
  {
    var st', key := First(st, a), AnchorId(a.stream, a.seqNo);
    RecordGrows(st, a);
    AnchorsOfAfter(keccak, st, st', a, a.stream);
    assert key !in AnchorsOf(st, a.stream);
    assert AnchorsOf(st', a.stream) == AnchorsOf(st, a.stream) + {key};
    if a.stream in st.streams {
      assert StreamSound(st, a.stream, st.streams[a.stream]);
    } else {
      NoStreamNoAnchors(keccak, st, a.stream);
    }
    forall k | k in AnchorsOf(st', a.stream) ensures st'.anchors[k].seqNo <= st'.streams[a.stream].latestSeq.value {
      if k in st.anchors { assert k in AnchorsOf(st, a.stream); }
    }
  }

  lemma {:induction false} NoStreamNoAnchors(keccak: Hash, st: Store, id: Bytes)
    requires Sound(keccak, st) && id !in st.streams
    ensures AnchorsOf(st, id) == {}
  {
    forall k | k in st.anchors ensures st.anchors[k].stream != id { assert AnchorSound(keccak, k, st.anchors[k]); }
  }

  lemma {:induction false} OtherStreamSound(keccak: Hash, st: Store, st': Store, a: Anchor, id: Bytes)
    requires Sound(keccak, st) && |a.stream| == 32 && Grows(st, st', a)
    requires id in st'.streams && id != a.stream
    ensures StreamSound(st', id, st'.streams[id])
  {
    AnchorsOfAfter(keccak, st, st', a, id);
    assert AnchorsOf(st', id) == AnchorsOf(st, id);
    StreamStaysSound(st, st', a, id);
  }

  lemma {:induction false} TakenStreamSound(keccak: Hash, st: Store, st': Store, a: Anchor)
    requires Sound(keccak, st) && |a.stream| == 32 && Grows(st, st', a) && AnchorId(a.stream, a.seqNo) in st.anchors
    requires st' == Repeat(st, a) || st' == Compete(st, a)
    ensures StreamSound(st', a.stream, st'.streams[a.stream])
  {
    var key := AnchorId(a.stream, a.seqNo);
    assert AnchorSound(keccak, key, st.anchors[key]);
    PositionOfId(keccak, st, a, key);
    AnchorsOfAfter(keccak, st, st', a, a.stream);
    assert AnchorsOf(st', a.stream) == AnchorsOf(st, a.stream);
    StreamStaysSound(st, st', a, a.stream);
  }

  lemma {:induction false} RecordKeepsSound(keccak: Hash, st: Store, a: Anchor)
    requires Sound(keccak, st) && AnchorSound(keccak, AnchorId(a.stream, a.seqNo), a) && |a.stream| == 32
    ensures Sound(keccak, Record(st, a))
  {
    var st' := Record(st, a);
    RecordGrows(st, a);
    if AnchorId(a.stream, a.seqNo) in st.anchors { TakenStreamSound(keccak, st, st', a); } else { FirstStreamSound(keccak, st, a); }
    GrownSound(keccak, st, st', a);
  }

  /** Soundness of the grown store needs checking only at the new anchor's stream. */
  lemma {:induction false} GrownSound(keccak: Hash, st: Store, st': Store, a: Anchor)
    requires Sound(keccak, st) && |a.stream| == 32 && Grows(st, st', a)
    requires AnchorSound(keccak, AnchorId(a.stream, a.seqNo), a) && StreamSound(st', a.stream, st'.streams[a.stream])
    ensures Sound(keccak, st')
  {
    GrownAnchorsSound(keccak, st, st', a);
    GrownStreamsSound(keccak, st, st', a);
  }

  lemma {:induction false} GrownStreamsSound(keccak: Hash, st: Store, st': Store, a: Anchor)
    requires Sound(keccak, st) && |a.stream| == 32 && Grows(st, st', a)
    requires StreamSound(st', a.stream, st'.streams[a.stream])
    ensures StreamsSound(st')
  {
    forall id | id in st'.streams ensures StreamSound(st', id, st'.streams[id]) {
      if id != a.stream { OtherStreamSound(keccak, st, st', a, id); }
    }
  }

  lemma {:induction false} GrownAnchorsSound(keccak: Hash, st: Store, st': Store, a: Anchor)
    requires Sound(keccak, st) && AnchorSound(keccak, AnchorId(a.stream, a.seqNo), a) && Grows(st, st', a)
    ensures AnchorsSound(keccak, st')
  {
    forall id | id in st'.anchors ensures AnchorSound(keccak, id, st'.anchors[id]) && st'.anchors[id].stream in st'.streams {
      if id in st.anchors { assert AnchorSound(keccak, id, st.anchors[id]) && Kept(st.anchors[id], st'.anchors[id]); }
    }
  }

  lemma {:induction false} ApplyKeepsSound(keccak: Hash, st: Store, p: Post)
    requires Sound(keccak, st) && PostSound(keccak, p)
    ensures Sound(keccak, Apply(st, p))
  {
    match p {
      case Position(a) => RecordKeepsSound(keccak, st, a);
      case Skipped =>
      case Undecodable(id, entity) => SameTablesSound(keccak, st, Apply(st, p));
    }
  }

  lemma {:induction false} SameTablesSound(keccak: Hash, st: Store, st': Store)
    requires Sound(keccak, st) && st'.anchors == st.anchors && st'.streams == st.streams
    ensures Sound(keccak, st')
  {
    forall id | id in st'.anchors ensures AnchorSound(keccak, id, st'.anchors[id]) && st'.anchors[id].stream in st'.streams {
      assert AnchorSound(keccak, id, st.anchors[id]);
    }
    forall id | id in st'.streams ensures StreamSound(st', id, st'.streams[id]) {
      assert StreamSound(st, id, st.streams[id]);
      assert AnchorsOf(st', id) == AnchorsOf(st, id);
    }
  }

  lemma {:induction false} RunSound(keccak: Hash, posts: seq<Post>, n: nat)
    requires n <= |posts| && PostsSound(keccak, posts)
    ensures Sound(keccak, Run(posts, n))
  {
    if n > 0 {
      RunSound(keccak, posts, n - 1);
      ApplyKeepsSound(keccak, Run(posts, n - 1), posts[n - 1]);
    }
  }

  /** Every reachable store is sound: a stream's count is the number of its anchors, its latest position their
      maximum, its head that anchor's digest, its flag set exactly when it has conflicts. */
  lemma {:induction false} ReachableStoresAreSound(keccak: Hash, calls: seq<Call>, mode: Mode, n: nat)
    requires n <= |calls|
    ensures Sound(keccak, Run(Posts(keccak, calls, mode), n))
  {
    CallsReadSound(keccak, calls, mode);
    RunSound(keccak, Posts(keccak, calls, mode), n);
  }

  /** Every conflict is filed under its position and transaction. */
  ghost predicate ConflictSound(id: string, c: Conflict) {
    id == ConflictId(c.stream, c.seqNo, c.txHash) && |c.stream| == 32
  }

  ghost predicate ConflictsSound(st: Store) {
    forall id {:trigger ConflictSound(id, st.conflicts[id])} :: id in st.conflicts ==> ConflictSound(id, st.conflicts[id])
  }

  lemma {:induction false} ApplyKeepsConflicts(keccak: Hash, st: Store, p: Post)
    requires ConflictsSound(st) && PostSound(keccak, p)
    ensures ConflictsSound(Apply(st, p))
  {
    var st' := Apply(st, p);
    forall id | id in st'.conflicts ensures ConflictSound(id, st'.conflicts[id]) {
      assert id in st.conflicts ==> ConflictSound(id, st.conflicts[id]);
    }
  }

  lemma {:induction false} RunKeepsConflicts(keccak: Hash, posts: seq<Post>, n: nat)
    requires n <= |posts| && PostsSound(keccak, posts)
    ensures ConflictsSound(Run(posts, n))
  {
    if n > 0 {
      RunKeepsConflicts(keccak, posts, n - 1);
      ApplyKeepsConflicts(keccak, Run(posts, n - 1), posts[n - 1]);
    }
  }

  /** The call posts a well-formed envelope at this position. */
  predicate CallAt(call: Call, streamId: Bytes, s: nat) {
    var f := DecodeEnvelope(call.payload);
    f.Ok? && f.value.streamId == streamId && f.value.seqNo == s
  }

  /** What was stored at `id` is still there, but for its duplicate counter. */
  ghost predicate Persists(st: Store, st': Store, id: string) {
    id in st.anchors ==> id in st'.anchors && Kept(st.anchors[id], st'.anchors[id])
  }

  lemma {:induction false} ApplyPersists(st: Store, p: Post, id: string)
    ensures Persists(st, Apply(st, p), id)
  {
    if p.Position? { RecordGrows(st, p.anchor); }
  }

  /** Once stored, an envelope never changes, however the run goes on. */
  lemma {:induction false} StoredEnvelopesStay(posts: seq<Post>, m: nat, n: nat, id: string)
    requires m <= n <= |posts|
    ensures Persists(Run(posts, m), Run(posts, n), id)
    decreases n
  {
    if m < n {
      StoredEnvelopesStay(posts, m, n - 1, id);
      ApplyPersists(Run(posts, n - 1), posts[n - 1], id);
    }
  }
}
