/** Where the rows of a raw scan, and of a served view, come from. */
module ScanProvenance {
  import opened Basics
  import opened ByteCodec
  import opened Envelope
  import opened ServedIndexes
  import opened AnchorIndexes
  import opened StoreInvariants
  import opened ConflictEntities
  import opened ChainScan
  import opened IndexViews
  import opened IndexRefinesScan
  import opened Provenance

  // ----- anchors -----------------------------------------------------------------------------

  /** The row a scan reads off the call: what its payload decodes to, the payload's digest, and the transaction. */
  ghost predicate RowFrom(keccak: Hash, call: Call, streamId: Bytes, row: ServedAnchor) {
    && DecodeEnvelope(call.payload) ==
         Ok(EnvelopeFields(1, streamId, row.seqNo, row.ciphertextDigest, row.prevEnvelopeDigest))
    && row.envelopeDigest == keccak(call.payload)
    && row.submitter == Some(call.from) && row.txHash == Some(call.txHash) && row.blockNumber == Some(call.blockNumber)
  }

  ghost function Reposts(keccak: Hash, calls: seq<Call>, j: nat, streamId: Bytes, row: ServedAnchor): set<int>
    requires row.seqNo >= 0
  {
    set k | j < k < |calls| && CallAt(calls[k], streamId, row.seqNo) && keccak(calls[k].payload) == row.envelopeDigest
  }

  /** The row is that of the first call at its position, with the later calls of its digest as duplicates. */
  ghost predicate ScannedFrom(keccak: Hash, calls: seq<Call>, streamId: Bytes, row: ServedAnchor, j: nat) {
    && j < |calls| && row.seqNo >= 0 && RowFrom(keccak, calls[j], streamId, row)
    && (forall i :: 0 <= i < j ==> !CallAt(calls[i], streamId, row.seqNo))
    && row.duplicateCount == |Reposts(keccak, calls, j, streamId, row)|
  }

  lemma {:induction false} HonestDigest(keccak: Hash, call: Call, stream: Bytes, s: nat, digest: Bytes)
    ensures PostsDigest(keccak, Honest, call, stream, s, digest) <==> CallAt(call, stream, s) && keccak(call.payload) == digest
  {
    assert KeptAs(Honest, call.payload, s, call.payload);
  }

  lemma {:induction false} ServedFrom(keccak: Hash, calls: seq<Call>, streamId: Bytes, a: Anchor, id: string, j: nat)
    requires j < |calls| && a.stream == streamId && AnchorFrom(keccak, Honest, calls[j], id, a)
    requires forall i :: 0 <= i < j ==> !IndexedAt(Honest, calls[i], a.stream, a.seqNo)
    requires a.duplicateCount == |Resubmissions(keccak, Honest, calls, |calls|, j, a)|
    ensures ScannedFrom(keccak, calls, streamId, AsServed(a), j)
  {
    hide DecodeEnvelope, CallAt;
    forall k ensures k in Resubmissions(keccak, Honest, calls, |calls|, j, a) <==> k in Reposts(keccak, calls, j, streamId, AsServed(a)) {
      if j < k < |calls| { HonestDigest(keccak, calls[k], a.stream, a.seqNo, a.envelopeDigest); }
    }
    assert Resubmissions(keccak, Honest, calls, |calls|, j, a) == Reposts(keccak, calls, j, streamId, AsServed(a));
  }

  lemma {:induction false} ScannedAnchor(keccak: Hash, calls: seq<Call>, streamId: Bytes, q: int) returns (j: nat)
    requires |streamId| == 32 && q in ScanTo(keccak, streamId, calls, |calls|).anchors
    ensures var row := ScanTo(keccak, streamId, calls, |calls|).anchors[q];
            row.seqNo == q && ScannedFrom(keccak, calls, streamId, row, j)
  {
    hide ScanTo, Run, AnchorId, AnchorFrom, ScannedFrom, Resubmissions, IndexedAt;
    var posts, n := Posts(keccak, calls, Honest), |calls|;
    CallsReadSound(keccak, calls, Honest);
    ScanReads(keccak, streamId, calls, n);
    AnchorsFollow(keccak, posts, streamId, n);
    RunSound(keccak, posts, n);
    assert MatchAt(Run(posts, n), ScanPosts(streamId, posts, n), streamId, q);
    var id := AnchorId(streamId, q);
    var a := Run(posts, n).anchors[id];
    StoredPosition(keccak, Run(posts, n), streamId, q);
    j := AnchorsWerePosted(keccak, calls, Honest, n, id);
    ServedFrom(keccak, calls, streamId, a, id, j);
  }

  lemma {:induction false} StoredPosition(keccak: Hash, st: Store, stream: Bytes, s: nat)
    requires Sound(keccak, st) && |stream| == 32 && AnchorId(stream, s) in st.anchors
    ensures st.anchors[AnchorId(stream, s)].stream == stream && st.anchors[AnchorId(stream, s)].seqNo == s
  {
    var a := st.anchors[AnchorId(stream, s)];
    assert AnchorSound(keccak, AnchorId(stream, s), a);
    DecodedStreamId(a.envelope);
    AnchorIdInjective(a.stream, a.seqNo, stream, s);
  }

  /** The rows of a scan, as a list of the map. */
  lemma {:induction false} ScannedList(keccak: Hash, calls: seq<Call>, streamId: Bytes)
    requires |streamId| == 32
    ensures var s := ScanTo(keccak, streamId, calls, |calls|); var rows := Scanned(streamId, s).anchors;
            && Increasing(ServedSeq(), rows)
            && (forall row :: row in rows ==> row.seqNo in s.anchors && s.anchors[row.seqNo] == row)
            && (forall q :: q in s.anchors ==> s.anchors[q] in rows)
            && (forall q :: q in s.anchors ==> q >= 0)
  {
    hide ScanTo, Run, MatchAt, Sound;
    var posts, n := Posts(keccak, calls, Honest), |calls|;
    CallsReadSound(keccak, calls, Honest);
    ScanReads(keccak, streamId, calls, n);
    AnchorsFollow(keccak, posts, streamId, n);
    RunSound(keccak, posts, n);
    var s := ScanTo(keccak, streamId, calls, n);
    ScanDistinct(keccak, Run(posts, n), s, streamId);
    var list := Map(Lookup(s.anchors), s.order);
    SortIncreases(ServedSeq(), list);
    forall row | row in list ensures row.seqNo in s.anchors && s.anchors[row.seqNo] == row {
      var i :| 0 <= i < |list| && list[i] == row;
      assert s.order[i] in s.order;
      ScanSeq(keccak, Run(posts, n), s, streamId, s.order[i]);
    }
    forall q | q in s.anchors ensures s.anchors[q] in list {
      var i :| 0 <= i < |s.order| && s.order[i] == q;
      assert list[i] == s.anchors[q];
    }
  }

  lemma {:induction false} CalledIsScanned(keccak: Hash, calls: seq<Call>, streamId: Bytes, k: nat, s: nat)
    requires |streamId| == 32 && k < |calls| && CallAt(calls[k], streamId, s)
    ensures s in ScanTo(keccak, streamId, calls, |calls|).anchors
  {
    hide ScanTo, Run, Sound, AnchorId;
    var posts, n := Posts(keccak, calls, Honest), |calls|;
    CallsReadSound(keccak, calls, Honest);
    ScanReads(keccak, streamId, calls, n);
    AnchorsFollow(keccak, posts, streamId, n);
    assert MatchAt(Run(posts, n), ScanPosts(streamId, posts, n), streamId, s);
    PositionPosted(keccak, calls[k], Honest, streamId, s);
    CompetesExactly(posts, n, k);
  }

  /** A scan serves, in order of position, one row for each position some call posts at, and that row is the first
      call's. */
  lemma {:induction false} ScannedAnchors(keccak: Hash, calls: seq<Call>, streamId: Bytes)
    requires |streamId| == 32
    ensures var rows := Scanned(streamId, ScanTo(keccak, streamId, calls, |calls|)).anchors;
            && Increasing(ServedSeq(), rows)
            && (forall row :: row in rows ==> exists j: nat :: ScannedFrom(keccak, calls, streamId, row, j))
            && (forall k, s: nat :: 0 <= k < |calls| && CallAt(calls[k], streamId, s) ==>
                  exists row :: row in rows && row.seqNo == s)
  {
    hide ScanTo, Scanned, ScannedFrom, CallAt, Increasing;
    ScannedList(keccak, calls, streamId);
    var scan := ScanTo(keccak, streamId, calls, |calls|);
    var rows := Scanned(streamId, scan).anchors;
    forall row | row in rows ensures exists j: nat :: ScannedFrom(keccak, calls, streamId, row, j) {
      var j := ScannedAnchor(keccak, calls, streamId, row.seqNo);
    }
    forall k, s: nat | 0 <= k < |calls| && CallAt(calls[k], streamId, s) ensures exists row :: row in rows && row.seqNo == s {
      CalledIsScanned(keccak, calls, streamId, k, s);
      var j := ScannedAnchor(keccak, calls, streamId, s);
      assert scan.anchors[s] in rows;
    }
  }

  // ----- conflicts and malformed posts -----------------------------------------------------------

  ghost predicate ListedFor(posts: seq<Post>, k: nat, streamId: Bytes, c: ServedConflict)
    requires k < |posts|
  {
    CompetesAt(posts, k, streamId) && c == AsServedConflict(AsConflict(posts[k].anchor))
  }

  lemma {:induction false} ConflictsNext(keccak: Hash, posts: seq<Post>, streamId: Bytes, k: nat, n: nat, c: ServedConflict)
    requires k + 1 == n <= |posts| && PostsSound(keccak, posts) && |streamId| == 32
    ensures c in ScanPosts(streamId, posts, n).conflicts <==>
              c in ScanPosts(streamId, posts, k).conflicts || ListedFor(posts, k, streamId, c)
  {
    hide Apply, AnchorsMatch, ScanPost, CompetesFor;
    AnchorsFollow(keccak, posts, streamId, k);
    ScanCompetes(Run(posts, k), ScanPosts(streamId, posts, k), streamId, posts[k]);
    assert CompetesAt(posts, k, streamId) <==> CompetesFor(Run(posts, k), posts[k], streamId);
  }

  lemma {:induction false} ConflictsListed(keccak: Hash, posts: seq<Post>, streamId: Bytes, n: nat, c: ServedConflict)
    requires n <= |posts| && PostsSound(keccak, posts) && |streamId| == 32
    ensures c in ScanPosts(streamId, posts, n).conflicts <==> exists k :: 0 <= k < n && ListedFor(posts, k, streamId, c)
  {
    hide ListedFor, PostsSound, ScanPost;
    if n > 0 {
      ConflictsListed(keccak, posts, streamId, n - 1, c);
      ConflictsNext(keccak, posts, streamId, n - 1, n, c);
    }
  }

  /** The call posts at the conflict's position another digest than the one scanned there. */
  ghost predicate RivalFrom(keccak: Hash, call: Call, streamId: Bytes, scanned: map<int, ServedAnchor>, c: ServedConflict) {
    && c.seqNo >= 0 && CallAt(call, streamId, c.seqNo)
    && c.seqNo in scanned && scanned[c.seqNo].envelopeDigest != keccak(call.payload)
    && c.envelopeDigest == keccak(call.payload)
    && c.txHash == Some(call.txHash) && c.blockNumber == Some(call.blockNumber)
  }

  lemma {:induction false} RivalCompetes(keccak: Hash, calls: seq<Call>, streamId: Bytes, k: nat, c: ServedConflict)
    requires |streamId| == 32 && k < |calls|
    ensures var posts := Posts(keccak, calls, Honest);
            ListedFor(posts, k, streamId, c) <==>
              RivalFrom(keccak, calls[k], streamId, ScanTo(keccak, streamId, calls, |calls|).anchors, c)
  {
    hide ScanTo, Run, AnchorId, Sound;
    var posts, n := Posts(keccak, calls, Honest), |calls|;
    CallsReadSound(keccak, calls, Honest);
    ScanReads(keccak, streamId, calls, n);
    AnchorsFollow(keccak, posts, streamId, n);
    if posts[k].Position? && posts[k].anchor.stream == streamId {
      CompetesExactly(posts, n, k);
      assert MatchAt(Run(posts, n), ScanPosts(streamId, posts, n), streamId, posts[k].anchor.seqNo);
    }
  }

  /** A conflict is listed exactly if some call is its rival. */
  lemma {:induction false} ScannedConflicts(keccak: Hash, calls: seq<Call>, streamId: Bytes, c: ServedConflict)
    requires |streamId| == 32
    ensures var s := ScanTo(keccak, streamId, calls, |calls|);
            c in Scanned(streamId, s).conflicts <==>
              exists k :: 0 <= k < |calls| && RivalFrom(keccak, calls[k], streamId, s.anchors, c)
  {
    hide ScanTo, Run, Read, RivalFrom, ListedFor, PostsSound;
    var posts, n := Posts(keccak, calls, Honest), |calls|;
    CallsReadSound(keccak, calls, Honest);
    ScanReads(keccak, streamId, calls, n);
    ConflictsListed(keccak, posts, streamId, n, c);
    forall k | 0 <= k < n
      ensures ListedFor(posts, k, streamId, c) <==>
                RivalFrom(keccak, calls[k], streamId, ScanTo(keccak, streamId, calls, n).anchors, c)
    {
      RivalCompetes(keccak, calls, streamId, k, c);
    }
  }

  /** The entry of an undecodable payload. */
  ghost predicate UndecodedFrom(call: Call, m: ServedMalformed) {
    && DecodeEnvelope(call.payload).Err?
    && m.reason == (if |call.payload| != 105 then "WRONG_LENGTH" else "UNSUPPORTED_VERSION")
    && m.payloadLength == Some(|call.payload|)
    && m.txHash == Some(call.txHash) && m.blockNumber == Some(call.blockNumber)
  }

  lemma {:induction false} MalformedOfCall(keccak: Hash, call: Call, m: ServedMalformed)
    ensures UndecodedFrom(call, m) <==>
              Read(keccak, call, Honest).Undecodable? && m == AsServedMalformed(Read(keccak, call, Honest).entity)
  {}

  lemma {:induction false} MalformedListed(posts: seq<Post>, streamId: Bytes, n: nat, m: ServedMalformed)
    requires n <= |posts|
    ensures m in ScanPosts(streamId, posts, n).malformed <==>
              exists k :: 0 <= k < n && posts[k].Undecodable? && m == AsServedMalformed(posts[k].entity)
  {
    if n > 0 { MalformedListed(posts, streamId, n - 1, m); }
  }

  /** A malformed entry is listed exactly if some call's payload does not decode. */
  lemma {:induction false} ScannedMalformed(keccak: Hash, calls: seq<Call>, streamId: Bytes, m: ServedMalformed)
    ensures m in Scanned(streamId, ScanTo(keccak, streamId, calls, |calls|)).malformed <==>
              exists k :: 0 <= k < |calls| && UndecodedFrom(calls[k], m)
  {
    hide ScanTo, Read, UndecodedFrom, AsServedMalformed, ScanPosts;
    var posts, n := Posts(keccak, calls, Honest), |calls|;
    ScanReads(keccak, streamId, calls, n);
    MalformedListed(posts, streamId, n, m);
    forall k | 0 <= k < n
      ensures UndecodedFrom(calls[k], m) <==> posts[k].Undecodable? && m == AsServedMalformed(posts[k].entity)
    {
      MalformedOfCall(keccak, calls[k], m);
    }
  }
}
