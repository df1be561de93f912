/** Records to verdict: the writer's stream, indexed among whatever else is posted, then checked. */
module EndToEnd {
  import opened Basics
  import opened ByteCodec
  import opened Envelope
  import opened AnchorStream
  import opened ServedIndexes
  import opened Verdicts
  import opened VerdictTheorems
  import opened AnchorIndexes
  import opened StoreInvariants
  import opened IndexViews
  import opened IndexRefinesScan

  // ----- one position's history ---------------------------------------------------------

  predicate PostAt(p: Post, streamId: Bytes, s: nat) {
    p.Position? && p.anchor.stream == streamId && p.anchor.seqNo == s
  }

  ghost predicate TakenBefore(posts: seq<Post>, n: nat, streamId: Bytes, s: nat)
    requires n <= |posts|
  {
    exists j :: 0 <= j < n && PostAt(posts[j], streamId, s)
  }

  function PostRow(a: Anchor): Row { Row(a.seqNo, a.ciphertextDigest, Some(a.prevEnvelopeDigest), Some(a.envelopeDigest)) }

  /** Whoever posts at the position first posts `row`. */
  ghost predicate FirstIs(posts: seq<Post>, streamId: Bytes, s: nat, row: Row) {
    forall j :: 0 <= j < |posts| && PostAt(posts[j], streamId, s) && !TakenBefore(posts, j, streamId, s) ==>
      PostRow(posts[j].anchor) == row
  }

  /** A later post at the position carries another envelope. */
  ghost predicate Contested(posts: seq<Post>, n: nat, streamId: Bytes, s: nat, row: Row)
    requires n <= |posts|
  {
    exists j :: 0 <= j < n && PostAt(posts[j], streamId, s) && Some(posts[j].anchor.envelopeDigest) != row.envelopeDigest
  }

  ghost predicate HasConflict(st: Store, streamId: Bytes, s: nat) {
    exists id :: id in st.conflicts && st.conflicts[id].stream == streamId && st.conflicts[id].seqNo == s
  }

  /** What the store says about one position. */
  ghost predicate History(st: Store, streamId: Bytes, s: nat, taken: bool, contested: bool, row: Row) {
    && (AnchorId(streamId, s) in st.anchors <==> taken)
    && (taken ==> PostRow(st.anchors[AnchorId(streamId, s)]) == row)
    && (HasConflict(st, streamId, s) <==> contested)
  }

  lemma {:induction false} RecordElsewhere(st: Store, a: Anchor, streamId: Bytes, s: nat, taken: bool, contested: bool, row: Row)
    requires ConflictsSound(st) && |streamId| == |a.stream| == 32
    requires History(st, streamId, s, taken, contested, row)
    requires a.stream != streamId || a.seqNo != s
    ensures History(Record(st, a), streamId, s, taken, contested, row)
  {
    hide AnchorId, ConflictId;
    AnchorIdsDiffer(streamId, s, a.stream, a.seqNo);
    var id, st' := ConflictId(a.stream, a.seqNo, a.txHash), Record(st, a);
    if HasConflict(st, streamId, s) {
      var k :| k in st.conflicts && st.conflicts[k].stream == streamId && st.conflicts[k].seqNo == s;
      assert ConflictSound(k, st.conflicts[k]);
      if k == id { ConflictIdInjective(streamId, s, st.conflicts[k].txHash, a.stream, a.seqNo, a.txHash); }
      assert k in st'.conflicts && st'.conflicts[k] == st.conflicts[k];
    }
  }

  lemma {:induction false} RecordHere(st: Store, a: Anchor, taken: bool, contested: bool, row: Row)
    requires ConflictsSound(st) && |a.stream| == 32
    requires History(st, a.stream, a.seqNo, taken, contested, row)
    requires !taken ==> PostRow(a) == row && !contested
    ensures History(Record(st, a), a.stream, a.seqNo, true, contested || Some(a.envelopeDigest) != row.envelopeDigest, row)
  {
    hide AnchorId, ConflictId;
    var id, st' := ConflictId(a.stream, a.seqNo, a.txHash), Record(st, a);
    if HasConflict(st, a.stream, a.seqNo) {
      var k :| k in st.conflicts && st.conflicts[k].stream == a.stream && st.conflicts[k].seqNo == a.seqNo;
      assert k in st'.conflicts && st'.conflicts[k].stream == a.stream && st'.conflicts[k].seqNo == a.seqNo;
    }
    if taken && Some(a.envelopeDigest) != row.envelopeDigest {
      assert id in st'.conflicts && st'.conflicts[id] == AsConflict(a);
    }
  }

  /** First come, first stored: the position holds the first envelope posted there, and a conflict exactly if
      another one followed. */
  lemma {:induction false} PositionHistory(keccak: Hash, posts: seq<Post>, n: nat, streamId: Bytes, s: nat, row: Row)
    requires n <= |posts| && PostsSound(keccak, posts) && |streamId| == 32
    requires FirstIs(posts, streamId, s, row)
    ensures History(Run(posts, n), streamId, s, TakenBefore(posts, n, streamId, s),
                    Contested(posts, n, streamId, s, row), row)
  {
    hide Record, AnchorId, ConflictsSound, History, FirstIs, PostsSound, TakenBefore, Contested;
    if n == 0 {
      NoHistory(posts, streamId, s, row);
    } else {
      var st, p := Run(posts, n - 1), posts[n - 1];
      var taken, contested := TakenBefore(posts, n - 1, streamId, s), Contested(posts, n - 1, streamId, s, row);
      PositionHistory(keccak, posts, n - 1, streamId, s, row);
      RunKeepsConflicts(keccak, posts, n - 1);
      PostFirst(keccak, posts, n - 1, streamId, s, row);
      HistoryGrows(posts, n - 1, n, streamId, s, row);
      if PostAt(p, streamId, s) {
        RecordHere(st, p.anchor, taken, contested, row);
      } else if p.Position? {
        RecordElsewhere(st, p.anchor, streamId, s, taken, contested, row);
      } else {
        SameConflictsSameHistory(st, Run(posts, n), streamId, s, taken, contested, row);
      }
    }
  }

  lemma NoHistory(posts: seq<Post>, streamId: Bytes, s: nat, row: Row)
    ensures History(Run(posts, 0), streamId, s, TakenBefore(posts, 0, streamId, s), Contested(posts, 0, streamId, s, row), row)
  {}

  lemma SameConflictsSameHistory(st: Store, st': Store, streamId: Bytes, s: nat, taken: bool, contested: bool, row: Row)
    requires History(st, streamId, s, taken, contested, row)
    requires st'.anchors == st.anchors && st'.conflicts == st.conflicts
    ensures History(st', streamId, s, taken, contested, row)
  {}

  /** Whoever finds the position free posts the row it then holds, and nothing competed before. */
  lemma PostFirst(keccak: Hash, posts: seq<Post>, k: nat, streamId: Bytes, s: nat, row: Row)
    requires k < |posts| && PostsSound(keccak, posts) && FirstIs(posts, streamId, s, row)
    ensures posts[k].Position? ==> |posts[k].anchor.stream| == 32
    ensures PostAt(posts[k], streamId, s) && !TakenBefore(posts, k, streamId, s) ==>
              PostRow(posts[k].anchor) == row && !Contested(posts, k, streamId, s, row)
  {
    assert PostSound(keccak, posts[k]);
  }

  lemma {:induction false} HistoryGrows(posts: seq<Post>, k: nat, n: nat, streamId: Bytes, s: nat, row: Row)
    requires k + 1 == n <= |posts|
    ensures TakenBefore(posts, n, streamId, s) <==> TakenBefore(posts, k, streamId, s) || PostAt(posts[k], streamId, s)
    ensures Contested(posts, n, streamId, s, row) <==>
              Contested(posts, k, streamId, s, row)
              || (PostAt(posts[k], streamId, s) && Some(posts[k].anchor.envelopeDigest) != row.envelopeDigest)
  {}

  // ----- the whole view --------------------------------------------------------------------

  /** `rows` are the rows first posted at the stream's positions. */
  ghost predicate FirstRows(posts: seq<Post>, streamId: Bytes, rowAt: nat -> Row, rows: set<Row>) {
    && (forall s: nat :: FirstIs(posts, streamId, s, rowAt(s)))
    && (forall r :: r in rows ==> exists s: nat :: TakenBefore(posts, |posts|, streamId, s) && r == rowAt(s))
    && (forall s: nat :: TakenBefore(posts, |posts|, streamId, s) ==> rowAt(s) in rows)
  }

  lemma {:induction false} ListedId(keccak: Hash, st: Store, streamId: Bytes, ids: seq<string>, id: string)
    requires Sound(keccak, st) && Lists(st.anchors, OfStream(streamId), ids) && id in ids
    ensures id in st.anchors && st.anchors[id].stream == streamId && id == AnchorId(streamId, st.anchors[id].seqNo)
    ensures ServedRow()(AnchorAt(st.anchors)(id)) == PostRow(st.anchors[id])
  {
    assert OfStream(streamId)(st.anchors[id]);
    assert AnchorSound(keccak, id, st.anchors[id]);
  }

  lemma {:induction false} PositionListed(keccak: Hash, st: Store, streamId: Bytes, ids: seq<string>, s: nat)
    requires Sound(keccak, st) && Lists(st.anchors, OfStream(streamId), ids) && |streamId| == 32
    requires AnchorId(streamId, s) in st.anchors
    ensures AnchorId(streamId, s) in ids
  {
    var id := AnchorId(streamId, s);
    var a := st.anchors[id];
    assert AnchorSound(keccak, id, a);
    DecodedStreamId(a.envelope);
    AnchorIdInjective(a.stream, a.seqNo, streamId, s);
    assert OfStream(streamId)(a);
  }

  lemma {:induction false} StoredRow(keccak: Hash, posts: seq<Post>, streamId: Bytes, s: nat, row: Row)
    requires PostsSound(keccak, posts) && |streamId| == 32 && FirstIs(posts, streamId, s, row)
    ensures var st, id := Run(posts, |posts|), AnchorId(streamId, s);
            && (id in st.anchors <==> TakenBefore(posts, |posts|, streamId, s))
            && (id in st.anchors ==> PostRow(st.anchors[id]) == row)
  {
    PositionHistory(keccak, posts, |posts|, streamId, s, row);
  }

  /** The rows of a view are those of the stream's stored anchors, in the order listed. */
  lemma {:induction false} ListedRows(keccak: Hash, st: Store, streamId: Bytes, l: Listing)
    requires Sound(keccak, st) && IsListing(st, streamId, l)
    ensures var list := Rows(ViewOf(st, streamId, l));
            && |list| == |l.anchors| && NoDup(list)
            && forall i :: 0 <= i < |list| ==>
                 list[i].seqNo >= 0 && l.anchors[i] == AnchorId(streamId, list[i].seqNo)
                 && l.anchors[i] in st.anchors && list[i] == PostRow(st.anchors[l.anchors[i]])
  {
    hide AnchorId, Sound;
    var list := Rows(ViewOf(st, streamId, l));
    forall i | 0 <= i < |list|
      ensures l.anchors[i] in st.anchors && list[i] == PostRow(st.anchors[l.anchors[i]])
      ensures list[i].seqNo >= 0 && l.anchors[i] == AnchorId(streamId, list[i].seqNo)
    {
      ListedId(keccak, st, streamId, l.anchors, l.anchors[i]);
    }
    forall i, j | 0 <= i < j < |list| ensures list[i] != list[j] { assert l.anchors[i] != l.anchors[j]; }
  }

  lemma {:induction false} ViewServes(keccak: Hash, posts: seq<Post>, streamId: Bytes, rowAt: nat -> Row, rows: set<Row>, l: Listing)
    requires PostsSound(keccak, posts) && |streamId| == 32 && FirstRows(posts, streamId, rowAt, rows)
    requires IsListing(Run(posts, |posts|), streamId, l)
    ensures Serves(ViewOf(Run(posts, |posts|), streamId, l), rows)
  {
    hide AnchorId, Sound, PostsSound, Run, TakenBefore, FirstIs, NoDup, ViewOf, Rows;
    var st := Run(posts, |posts|);
    RunSound(keccak, posts, |posts|);
    ListedRows(keccak, st, streamId, l);
    var list := Rows(ViewOf(st, streamId, l));
    forall r ensures r in Elements(list) <==> r in rows {
      if r in list {
        var i :| 0 <= i < |list| && list[i] == r;
        StoredRow(keccak, posts, streamId, r.seqNo, rowAt(r.seqNo));
      }
      if r in rows {
        var s: nat :| TakenBefore(posts, |posts|, streamId, s) && r == rowAt(s);
        StoredRow(keccak, posts, streamId, s, rowAt(s));
        PositionListed(keccak, st, streamId, l.anchors, s);
        var i :| 0 <= i < |l.anchors| && l.anchors[i] == AnchorId(streamId, s);
        assert list[i] == r;
      }
    }
    assert Elements(list) == rows;
  }

  ghost predicate Named(conflicts: seq<ServedConflict>, s: int) {
    exists i :: 0 <= i < |conflicts| && conflicts[i].seqNo == s
  }

  lemma {:induction false} ViewConflicts(st: Store, streamId: Bytes, l: Listing, s: int)
    requires IsListing(st, streamId, l)
    ensures Named(ViewOf(st, streamId, l).conflicts, s) <==> s >= 0 && HasConflict(st, streamId, s)
  {
    var conflicts := ViewOf(st, streamId, l).conflicts;
    if s >= 0 && HasConflict(st, streamId, s) {
      var id :| id in st.conflicts && st.conflicts[id].stream == streamId && st.conflicts[id].seqNo == s;
      assert ConflictOf(streamId)(st.conflicts[id]) && id in l.conflicts;
      var i :| 0 <= i < |l.conflicts| && l.conflicts[i] == id;
      assert conflicts[i].seqNo == s;
    }
    if i :| 0 <= i < |conflicts| && conflicts[i].seqNo == s {
      assert l.conflicts[i] in l.conflicts && ConflictOf(streamId)(st.conflicts[l.conflicts[i]]);
    }
  }

  // ----- the writer and everybody else ----------------------------------------------------------

  /** A whole stream, every anchor with its version-1 envelope and the digest of it. */
  ghost predicate Enveloped(keccak: Hash, streamId: Bytes, published: seq<ComputedAnchor>) {
    && Complete(keccak, streamId, published)
    && forall s :: 0 <= s < |published| ==> EnvelopeOf(keccak, streamId, published[s])
  }

  ghost predicate EnvelopeOf(keccak: Hash, streamId: Bytes, a: ComputedAnchor) {
    && a.envelope.Some? && a.prevEnvelopeDigest.Some?
    && DecodeEnvelope(a.envelope.value) ==
         Ok(EnvelopeFields(ENVELOPE_VERSION, streamId, a.seqNo, a.ciphertextDigest, a.prevEnvelopeDigest.value))
    && a.envelopeDigest == Some(keccak(a.envelope.value))
  }

  ghost predicate CalledBefore(calls: seq<Call>, n: nat, streamId: Bytes, s: nat)
    requires n <= |calls|
  {
    exists j :: 0 <= j < n && CallAt(calls[j], streamId, s)
  }

  /** Each position 0..n-1 is taken, first by the writer's envelope, and no other; anything else may be posted around. */
  ghost predicate WriterFirst(calls: seq<Call>, streamId: Bytes, published: seq<ComputedAnchor>) {
    && (forall j, s: nat :: 0 <= j < |calls| && CallAt(calls[j], streamId, s) && !CalledBefore(calls, j, streamId, s) ==>
          s < |published| && Some(calls[j].payload) == published[s].envelope)
    && (forall s: nat :: s < |published| ==> CalledBefore(calls, |calls|, streamId, s))
  }

  lemma {:induction false} PostsFollowCalls(keccak: Hash, calls: seq<Call>, mode: Mode, n: nat, streamId: Bytes, s: nat)
    requires n <= |calls| && !Withheld(mode, s)
    ensures TakenBefore(Posts(keccak, calls, mode), n, streamId, s) <==> CalledBefore(calls, n, streamId, s)
    ensures forall j :: 0 <= j < |calls| ==>
              (PostAt(Posts(keccak, calls, mode)[j], streamId, s) <==> CallAt(calls[j], streamId, s))
  {
    var posts := Posts(keccak, calls, mode);
    forall j | 0 <= j < |calls| ensures PostAt(posts[j], streamId, s) <==> CallAt(calls[j], streamId, s) {
      ReadAt(keccak, calls[j], mode, streamId, s);
    }
  }

  lemma {:induction false} ReadAt(keccak: Hash, call: Call, mode: Mode, streamId: Bytes, s: nat)
    ensures PostAt(Read(keccak, call, mode), streamId, s) <==> CallAt(call, streamId, s) && !Withheld(mode, s)
  {}

  /** The row a mode makes of the writer's envelope. */
  ghost function ModeRow(keccak: Hash, streamId: Bytes, mode: Mode, a: ComputedAnchor): Row
    requires a.envelope.Some? && |a.envelope.value| == ENVELOPE_LENGTH && a.seqNo >= 0
  {
    var envelope := Served(mode, a.envelope.value, a.seqNo);
    Row(a.seqNo, a.ciphertextDigest, Some(envelope[73..105]), Some(keccak(envelope)))
  }

  lemma {:induction false} WriterDecodes(keccak: Hash, streamId: Bytes, published: seq<ComputedAnchor>, s: nat)
    requires Enveloped(keccak, streamId, published) && s < |published|
    ensures published[s].envelope.Some? && |published[s].envelope.value| == ENVELOPE_LENGTH
    ensures published[s].seqNo == s && published[s].prevEnvelopeDigest.Some?
    ensures DecodeEnvelope(published[s].envelope.value) ==
              Ok(EnvelopeFields(ENVELOPE_VERSION, streamId, s, published[s].ciphertextDigest,
                                published[s].prevEnvelopeDigest.value))
    ensures published[s].envelopeDigest == Some(keccak(published[s].envelope.value))
  {
    assert EnvelopeOf(keccak, streamId, published[s]);
    EncodeDecode(published[s].envelope.value);
  }

  /** Honestly served, the writer's envelope is the writer's row. */
  lemma {:induction false} HonestRow(keccak: Hash, streamId: Bytes, published: seq<ComputedAnchor>, mode: Mode, s: nat)
    requires Enveloped(keccak, streamId, published) && s < |published|
    requires mode == BreakChainAtSeqFive ==> s != 5
    ensures published[s].envelope.Some? && |published[s].envelope.value| == ENVELOPE_LENGTH
    ensures published[s].seqNo == s
    ensures ModeRow(keccak, streamId, mode, published[s]) == AnchorRow()(published[s])
  {
    WriterDecodes(keccak, streamId, published, s);
    CompleteLinks(keccak, streamId, published, s);
  }

  ghost function RowAt(keccak: Hash, streamId: Bytes, mode: Mode, published: seq<ComputedAnchor>): nat -> Row {
    (s: nat) =>
      if && s < |published| && published[s].envelope.Some? && published[s].seqNo >= 0
         && |published[s].envelope.value| == ENVELOPE_LENGTH
      then ModeRow(keccak, streamId, mode, published[s]) else Row(-1, [], None, None)
  }

  ghost function KeptPositions(mode: Mode, published: seq<ComputedAnchor>): set<nat> {
    set s: nat | s < |published| && !Withheld(mode, s)
  }

  ghost function ModeRows(keccak: Hash, streamId: Bytes, mode: Mode, published: seq<ComputedAnchor>): set<Row> {
    set s | s in KeptPositions(mode, published) :: RowAt(keccak, streamId, mode, published)(s)
  }

  lemma {:induction false} FirstPostIsWriters(keccak: Hash, calls: seq<Call>, mode: Mode, streamId: Bytes,
                                              published: seq<ComputedAnchor>, s: nat)
    requires Enveloped(keccak, streamId, published) && WriterFirst(calls, streamId, published)
    ensures FirstIs(Posts(keccak, calls, mode), streamId, s, RowAt(keccak, streamId, mode, published)(s))
  {
    var posts := Posts(keccak, calls, mode);
    forall j | 0 <= j < |posts| && PostAt(posts[j], streamId, s) && !TakenBefore(posts, j, streamId, s)
      ensures PostRow(posts[j].anchor) == RowAt(keccak, streamId, mode, published)(s)
    {
      ReadAt(keccak, calls[j], mode, streamId, s);
      PostsFollowCalls(keccak, calls, mode, j, streamId, s);
      assert CallAt(calls[j], streamId, s) && !CalledBefore(calls, j, streamId, s);
      WriterDecodes(keccak, streamId, published, s);
    }
  }

  /** However the writer's calls are interleaved with others', the mode's rows are what is stored first. */
  lemma {:induction false} WriterRows(keccak: Hash, calls: seq<Call>, mode: Mode, streamId: Bytes, published: seq<ComputedAnchor>)
    requires Enveloped(keccak, streamId, published) && WriterFirst(calls, streamId, published)
    ensures FirstRows(Posts(keccak, calls, mode), streamId, RowAt(keccak, streamId, mode, published),
                      ModeRows(keccak, streamId, mode, published))
  {
    var posts, rowAt := Posts(keccak, calls, mode), RowAt(keccak, streamId, mode, published);
    forall s: nat ensures FirstIs(posts, streamId, s, rowAt(s)) {
      FirstPostIsWriters(keccak, calls, mode, streamId, published, s);
    }
    forall s: nat ensures TakenBefore(posts, |posts|, streamId, s) <==> s in KeptPositions(mode, published) {
      TakenExactly(keccak, calls, mode, streamId, published, s);
    }
  }

  lemma {:induction false} TakenExactly(keccak: Hash, calls: seq<Call>, mode: Mode, streamId: Bytes,
                                        published: seq<ComputedAnchor>, s: nat)
    requires WriterFirst(calls, streamId, published)
    ensures TakenBefore(Posts(keccak, calls, mode), |calls|, streamId, s) <==> s < |published| && !Withheld(mode, s)
  {
    var posts := Posts(keccak, calls, mode);
    if Withheld(mode, s) {
      forall j | 0 <= j < |posts| ensures !PostAt(posts[j], streamId, s) { ReadAt(keccak, calls[j], mode, streamId, s); }
    } else {
      PostsFollowCalls(keccak, calls, mode, |calls|, streamId, s);
      if CalledBefore(calls, |calls|, streamId, s) { SomeoneWasFirst(calls, |calls|, streamId, s); }
    }
  }

  lemma {:induction false} SomeoneWasFirst(calls: seq<Call>, n: nat, streamId: Bytes, s: nat)
    requires n <= |calls| && CalledBefore(calls, n, streamId, s)
    ensures exists j :: 0 <= j < n && CallAt(calls[j], streamId, s) && !CalledBefore(calls, j, streamId, s)
  {
    if CalledBefore(calls, n - 1, streamId, s) { SomeoneWasFirst(calls, n - 1, streamId, s); }
  }

  /** The rows each mode serves are the ones the checker's tamper theorems speak of. */
  lemma {:induction false} HonestModeRows(keccak: Hash, streamId: Bytes, mode: Mode, published: seq<ComputedAnchor>, dropped: set<int>)
    requires Enveloped(keccak, streamId, published)
    requires mode != BreakChainAtSeqFive || |published| <= 5
    requires forall s: nat :: s < |published| ==> (s in dropped <==> Withheld(mode, s))
    ensures ModeRows(keccak, streamId, mode, published) == KeptRows(published, dropped)
  {
    var rowAt := RowAt(keccak, streamId, mode, published);
    forall s: nat | s < |published| ensures rowAt(s) == AnchorRow()(published[s]) { HonestRow(keccak, streamId, published, mode, s); }
    forall r ensures r in ModeRows(keccak, streamId, mode, published) <==> r in KeptRows(published, dropped) {
      if r in ModeRows(keccak, streamId, mode, published) {
        var s :| s in KeptPositions(mode, published) && rowAt(s) == r;
        assert r == AnchorRow()(published[s]);
      }
      if r in KeptRows(published, dropped) {
        var i :| 0 <= i < |published| && i !in dropped && AnchorRow()(published[i]) == r;
        assert i in KeptPositions(mode, published) && rowAt(i) == r;
      }
    }
  }

  /** The link the tampered envelope of position 5 carries. */
  ghost function FlippedLink(a: ComputedAnchor): Bytes
    requires a.envelope.Some? && |a.envelope.value| == ENVELOPE_LENGTH
  {
    Tampered(a.envelope.value)[73..105]
  }

  lemma {:induction false} TamperedRow(keccak: Hash, streamId: Bytes, published: seq<ComputedAnchor>)
    requires Enveloped(keccak, streamId, published) && |published| > 5
    ensures published[5].envelope.Some? && |published[5].envelope.value| == ENVELOPE_LENGTH
    ensures var prev := FlippedLink(published[5]);
            && |prev| == 32 && published[5].prevEnvelopeDigest != Some(prev)
            && RowAt(keccak, streamId, BreakChainAtSeqFive, published)(5) == Relinked(keccak, streamId, published[5], prev)
  {
    WriterDecodes(keccak, streamId, published, 5);
    var p := published[5].envelope.value;
    var q, prev := Tampered(p), FlippedLink(published[5]);
    TamperedDecodes(p);
    EncodeDecode(q);
    assert p[73..105] == published[5].prevEnvelopeDigest.value;
    assert prev[0] == q[73] == 255 - p[73] && published[5].prevEnvelopeDigest.value[0] == p[73];
  }

  lemma {:induction false} BrokenModeRows(keccak: Hash, streamId: Bytes, published: seq<ComputedAnchor>)
    requires Enveloped(keccak, streamId, published) && |published| > 5
    ensures published[5].envelope.Some? && |published[5].envelope.value| == ENVELOPE_LENGTH
    ensures ModeRows(keccak, streamId, BreakChainAtSeqFive, published) ==
              RelinkedRows(keccak, streamId, published, 5, FlippedLink(published[5]))
  {
    TamperedRow(keccak, streamId, published);
    var prev, rowAt := FlippedLink(published[5]), RowAt(keccak, streamId, BreakChainAtSeqFive, published);
    forall s: nat | s < |published| ensures rowAt(s) == RelinkedRow(keccak, streamId, published, 5, prev, s) {
      if s != 5 { HonestRow(keccak, streamId, published, BreakChainAtSeqFive, s); }
    }
    RelinkedImage(keccak, streamId, published, prev, rowAt);
  }

  lemma {:induction false} RelinkedImage(keccak: Hash, streamId: Bytes, published: seq<ComputedAnchor>, prev: Bytes, rowAt: nat -> Row)
    requires forall s: nat :: s < |published| ==> rowAt(s) == RelinkedRow(keccak, streamId, published, 5, prev, s)
    ensures (set s | s in KeptPositions(BreakChainAtSeqFive, published) :: rowAt(s)) ==
              RelinkedRows(keccak, streamId, published, 5, prev)
  {
    var a := set s | s in KeptPositions(BreakChainAtSeqFive, published) :: rowAt(s);
    forall r ensures r in a <==> r in RelinkedRows(keccak, streamId, published, 5, prev) {
      if r in RelinkedRows(keccak, streamId, published, 5, prev) {
        var i :| 0 <= i < |published| && RelinkedRow(keccak, streamId, published, 5, prev, i) == r;
        assert i in KeptPositions(BreakChainAtSeqFive, published) && rowAt(i) == r;
      }
    }
  }

  // ----- conflicts --------------------------------------------------------------------------------

  /** The call posts at position `s` an envelope that, served in this mode, has another digest than the writer's. */
  ghost predicate Rivals(keccak: Hash, call: Call, mode: Mode, streamId: Bytes, a: ComputedAnchor, s: nat) {
    && CallAt(call, streamId, s) && !Withheld(mode, s)
    && a.envelope.Some? && |a.envelope.value| == ENVELOPE_LENGTH
    && keccak(Served(mode, call.payload, s)) != keccak(Served(mode, a.envelope.value, s))
  }

  /** The positions at which some call does. */
  ghost function ContestedPositions(keccak: Hash, calls: seq<Call>, mode: Mode, streamId: Bytes,
                                    published: seq<ComputedAnchor>): set<int> {
    set s | 0 <= s < |published| && exists j :: 0 <= j < |calls| && Rivals(keccak, calls[j], mode, streamId, published[s], s)
  }

  lemma RivalPosts(keccak: Hash, call: Call, mode: Mode, streamId: Bytes, published: seq<ComputedAnchor>, s: nat)
    requires Enveloped(keccak, streamId, published) && s < |published|
    ensures var post := Read(keccak, call, mode);
            Rivals(keccak, call, mode, streamId, published[s], s) <==>
              PostAt(post, streamId, s)
              && Some(post.anchor.envelopeDigest) != RowAt(keccak, streamId, mode, published)(s).envelopeDigest
  {
    ReadAt(keccak, call, mode, streamId, s);
    WriterDecodes(keccak, streamId, published, s);
  }

  lemma {:induction false} ContestedExactly(keccak: Hash, calls: seq<Call>, mode: Mode, streamId: Bytes,
                                            published: seq<ComputedAnchor>, s: nat)
    requires Enveloped(keccak, streamId, published) && WriterFirst(calls, streamId, published)
    ensures Contested(Posts(keccak, calls, mode), |calls|, streamId, s, RowAt(keccak, streamId, mode, published)(s))
            <==> s in ContestedPositions(keccak, calls, mode, streamId, published)
  {
    hide Rivals, Read, RowAt, Complete;
    var posts := Posts(keccak, calls, mode);
    TakenExactly(keccak, calls, mode, streamId, published, s);
    if s < |published| {
      forall j | 0 <= j < |calls|
        ensures Rivals(keccak, calls[j], mode, streamId, published[s], s) <==>
                  PostAt(posts[j], streamId, s) &&
                  Some(posts[j].anchor.envelopeDigest) != RowAt(keccak, streamId, mode, published)(s).envelopeDigest
      {
        RivalPosts(keccak, calls[j], mode, streamId, published, s);
      }
    }
  }

  lemma {:induction false} ViewConflictsExactly(keccak: Hash, calls: seq<Call>, mode: Mode, streamId: Bytes,
                                                published: seq<ComputedAnchor>, l: Listing, s: int)
    requires Enveloped(keccak, streamId, published) && WriterFirst(calls, streamId, published)
    requires IsListing(Run(Posts(keccak, calls, mode), |calls|), streamId, l)
    ensures Named(ViewOf(Run(Posts(keccak, calls, mode), |calls|), streamId, l).conflicts, s)
            <==> s >= 0 && Contested(Posts(keccak, calls, mode), |calls|, streamId, s, RowAt(keccak, streamId, mode, published)(s))
  {
    ViewConflicts(Run(Posts(keccak, calls, mode), |calls|), streamId, l, s);
    if s >= 0 {
      CallsReadSound(keccak, calls, mode);
      FirstPostIsWriters(keccak, calls, mode, streamId, published, s);
      PositionHistory(keccak, Posts(keccak, calls, mode), |calls|, streamId, s, RowAt(keccak, streamId, mode, published)(s));
    }
  }

  /** The conflicts served are those of the contested positions. */
  lemma {:induction false} ConflictsServed(keccak: Hash, calls: seq<Call>, mode: Mode, streamId: Bytes,
                                           published: seq<ComputedAnchor>, l: Listing)
    requires Enveloped(keccak, streamId, published) && WriterFirst(calls, streamId, published)
    requires IsListing(Run(Posts(keccak, calls, mode), |calls|), streamId, l)
    ensures ConflictPositions(ViewOf(Run(Posts(keccak, calls, mode), |calls|), streamId, l)) ==
              ContestedPositions(keccak, calls, mode, streamId, published)
  {
    hide Run, Posts, WriterFirst, IsListing, Complete, ViewOf, Rivals, Contested, RowAt;
    var view, contested := ViewOf(Run(Posts(keccak, calls, mode), |calls|), streamId, l),
                           ContestedPositions(keccak, calls, mode, streamId, published);
    forall s ensures s in ConflictPositions(view) <==> s in contested {
      ViewConflictsExactly(keccak, calls, mode, streamId, published, l, s);
      if s >= 0 { ContestedExactly(keccak, calls, mode, streamId, published, s); }
    }
  }

  /** Each position is only ever posted with the writer's envelope (identical re-submissions included). */
  ghost predicate OnlyWriter(calls: seq<Call>, streamId: Bytes, published: seq<ComputedAnchor>) {
    forall j, s: nat :: 0 <= j < |calls| && CallAt(calls[j], streamId, s) ==>
      s < |published| && Some(calls[j].payload) == published[s].envelope
  }

  lemma {:induction false} OnlyWriterUncontested(keccak: Hash, calls: seq<Call>, mode: Mode, streamId: Bytes,
                                                 published: seq<ComputedAnchor>)
    requires OnlyWriter(calls, streamId, published)
    ensures |ContestedPositions(keccak, calls, mode, streamId, published)| == 0
  {
    forall s ensures s !in ContestedPositions(keccak, calls, mode, streamId, published) {}
  }

  // ----- end to end ------------------------------------------------------------------------------------

  /** The stream some records compute to, from position 0 without a hole. */
  ghost predicate Publishes(c: Crypto, key: Bytes, streamId: Bytes, records: seq<RecordInput>, published: seq<ComputedAnchor>) {
    |streamId| == 32 && Computed(c, key, streamId, records) == Ok(published) && FromZero(published)
  }

  lemma {:induction false} PublishedIsComplete(c: Crypto, key: Bytes, streamId: Bytes, records: seq<RecordInput>,
                                               published: seq<ComputedAnchor>)
    requires Publishes(c, key, streamId, records, published)
    ensures Complete(c.keccak, streamId, published) && Enveloped(c.keccak, streamId, published)
  {
    hide Computed, AnchorOfRecord, Linked;
    ComputedIsWellChained(c, key, streamId, records);
    var sorted := ComputedContents(c, key, streamId, records);
    forall s | 0 <= s < |published| ensures EnvelopeOf(c.keccak, streamId, published[s]) {
      CompleteLinks(c.keccak, streamId, published, s);
      assert AnchorOfRecord(c, key, streamId, sorted[s], published[s]);
      EnvelopeOfRecord(c, key, streamId, sorted[s], published[s]);
    }
  }

  lemma {:induction false} EnvelopeOfRecord(c: Crypto, key: Bytes, streamId: Bytes, r: RecordInput, a: ComputedAnchor)
    requires AnchorOfRecord(c, key, streamId, r, a) && a.prevEnvelopeDigest.Some?
    ensures EnvelopeOf(c.keccak, streamId, a)
  {}

  /** In every mode, what is served of the writer's stream is the mode's rows. */
  lemma {:induction false} ModeServes(keccak: Hash, calls: seq<Call>, mode: Mode, streamId: Bytes, published: seq<ComputedAnchor>,
                                      l: Listing)
    requires Enveloped(keccak, streamId, published) && WriterFirst(calls, streamId, published)
    requires IsListing(Run(Posts(keccak, calls, mode), |calls|), streamId, l)
    ensures Serves(ViewOf(Run(Posts(keccak, calls, mode), |calls|), streamId, l), ModeRows(keccak, streamId, mode, published))
  {
    CallsReadSound(keccak, calls, mode);
    WriterRows(keccak, calls, mode, streamId, published);
    ViewServes(keccak, Posts(keccak, calls, mode), streamId, RowAt(keccak, streamId, mode, published),
               ModeRows(keccak, streamId, mode, published), l);
  }

  lemma {:induction false} HonestServes(keccak: Hash, streamId: Bytes, published: seq<ComputedAnchor>, calls: seq<Call>, l: Listing)
    requires Enveloped(keccak, streamId, published) && WriterFirst(calls, streamId, published)
    requires IsListing(Run(Posts(keccak, calls, Honest), |calls|), streamId, l)
    ensures Serves(ViewOf(Run(Posts(keccak, calls, Honest), |calls|), streamId, l), PublishedRows(published))
  {
    ModeServes(keccak, calls, Honest, streamId, published, l);
    HonestModeRows(keccak, streamId, Honest, published, {});
  }

  /** Honest indexing of the writer's stream, among malformed posts, identical re-submissions, other streams' posts and
      competing envelopes, then the checker against the same records: the findings are exactly one CONFLICT for each
      contested position, and the run exits 0 if there is none. */
  lemma {:induction false} HonestRun(c: Crypto, key: Bytes, streamId: Bytes, records: seq<RecordInput>,
                                     published: seq<ComputedAnchor>, calls: seq<Call>, l: Listing, served: ServedIndex)
    requires Publishes(c, key, streamId, records, published) && WriterFirst(calls, streamId, published)
    requires IsListing(Run(Posts(c.keccak, calls, Honest), |calls|), streamId, l)
    requires served == ViewOf(Run(Posts(c.keccak, calls, Honest), |calls|), streamId, l)
    ensures Reports(Compare(c.keccak, published, served),
                    At(CONFLICT, ContestedPositions(c.keccak, calls, Honest, streamId, published)), 6)
  {
    hide Publishes, Complete, Enveloped, WriterFirst, IsListing, ContestedPositions, ConflictPositions, Compare, Reports, Run, At, Serves;
    PublishedIsComplete(c, key, streamId, records, published);
    HonestServes(c.keccak, streamId, published, calls, l);
    ConflictsServed(c.keccak, calls, Honest, streamId, published, l);
    assert Complete(c.keccak, served.streamId, published);
    RestatedRecordsAreNamed(c.keccak, published, served, published);
    NothingRestated(published, served);
  }

  lemma NothingRestated(published: seq<ComputedAnchor>, served: ServedIndex)
    ensures Restatements(published, published) == {}
    ensures At(ALTERED, Restatements(published, published)) + Contests(served) == At(CONFLICT, ConflictPositions(served))
  {}

  function EveryFourth(n: nat): set<int> { set s | 0 <= s < n && s % 4 == 3 }

  lemma {:induction false} DroppedServes(keccak: Hash, streamId: Bytes, published: seq<ComputedAnchor>, calls: seq<Call>,
                                         l: Listing)
    requires Enveloped(keccak, streamId, published) && WriterFirst(calls, streamId, published)
    requires IsListing(Run(Posts(keccak, calls, DropEveryFourth), |calls|), streamId, l)
    ensures Serves(ViewOf(Run(Posts(keccak, calls, DropEveryFourth), |calls|), streamId, l),
                   KeptRows(published, EveryFourth(|published|)))
  {
    ModeServes(keccak, calls, DropEveryFourth, streamId, published, l);
    HonestModeRows(keccak, streamId, DropEveryFourth, published, EveryFourth(|published|));
  }

  /** The first test server withholds every fourth anchor: GAP at exactly the positions 3 mod 4, a count mismatch, and one
      CONFLICT for each contested position it serves. */
  lemma {:induction false} DroppingServerIsNamed(c: Crypto, key: Bytes, streamId: Bytes, records: seq<RecordInput>,
      published: seq<ComputedAnchor>, calls: seq<Call>, l: Listing, served: ServedIndex)
    requires Publishes(c, key, streamId, records, published) && |published| > 3
    requires WriterFirst(calls, streamId, published)
    requires IsListing(Run(Posts(c.keccak, calls, DropEveryFourth), |calls|), streamId, l)
    requires served == ViewOf(Run(Posts(c.keccak, calls, DropEveryFourth), |calls|), streamId, l)
    ensures Reports(Compare(c.keccak, published, served),
                    At(GAP, EveryFourth(|published|)) + {Finding(COUNT_MISMATCH, None)}
                    + At(CONFLICT, ContestedPositions(c.keccak, calls, DropEveryFourth, streamId, published)), 4)
  {
    hide Publishes, Complete, Enveloped, WriterFirst, IsListing, ContestedPositions, ConflictPositions, Compare, Reports, Run, At, Serves;
    PublishedIsComplete(c, key, streamId, records, published);
    DroppedServes(c.keccak, streamId, published, calls, l);
    ConflictsServed(c.keccak, calls, DropEveryFourth, streamId, published, l);
    assert 3 in EveryFourth(|published|);
    assert Complete(c.keccak, served.streamId, published);
    DroppedRowsAreNamed(c.keccak, published, served, EveryFourth(|published|));
  }

  /** The second rewrites the link of position 5 and re-hashes the row: CHAIN-BREAK there, and one CONFLICT for each
      contested position. */
  lemma {:induction false} BreakingServerIsNamed(c: Crypto, key: Bytes, streamId: Bytes, records: seq<RecordInput>,
      published: seq<ComputedAnchor>, calls: seq<Call>, l: Listing, served: ServedIndex)
    requires Publishes(c, key, streamId, records, published) && |published| > 5
    requires WriterFirst(calls, streamId, published)
    requires IsListing(Run(Posts(c.keccak, calls, BreakChainAtSeqFive), |calls|), streamId, l)
    requires served == ViewOf(Run(Posts(c.keccak, calls, BreakChainAtSeqFive), |calls|), streamId, l)
    ensures Reports(Compare(c.keccak, published, served),
                    {Finding(CHAIN_BREAK, Some(5))}
                    + At(CONFLICT, ContestedPositions(c.keccak, calls, BreakChainAtSeqFive, streamId, published)), 5)
  {
    hide Publishes, Complete, Enveloped, WriterFirst, IsListing, ContestedPositions, ConflictPositions, Compare, Reports, Run, At, Serves;
    PublishedIsComplete(c, key, streamId, records, published);
    ModeServes(c.keccak, calls, BreakChainAtSeqFive, streamId, published, l);
    BrokenModeRows(c.keccak, streamId, published);
    TamperedRow(c.keccak, streamId, published);
    ConflictsServed(c.keccak, calls, BreakChainAtSeqFive, streamId, published, l);
    assert Complete(c.keccak, served.streamId, published);
    RewrittenLinkIsNamed(c.keccak, published, served, 5, FlippedLink(published[5]));
  }
}
