/** What a query of the store serves for one stream: completeness-checker/sources/graphql.ts. */
module IndexViews {
  import opened Basics
  import opened ByteCodec
  import opened ServedIndexes
  import opened AnchorIndexes
  import opened ChainScan

  function AsServed(a: Anchor): ServedAnchor {
    ServedAnchor(a.seqNo, a.ciphertextDigest, a.prevEnvelopeDigest, a.envelopeDigest, a.duplicateCount,
                 Some(a.submitter), Some(a.txHash), Some(a.blockNumber))
  }

  function AsServedConflict(c: Conflict): ServedConflict {
    ServedConflict(c.seqNo, c.envelopeDigest, Some(c.txHash), Some(c.blockNumber))
  }

  function AsServedMalformed(m: Malformed): ServedMalformed {
    ServedMalformed(ReasonText(m.reason), Some(m.payloadLength), Some(m.txHash), Some(m.blockNumber))
  }

  const NO_CONFLICT: ServedConflict := ServedConflict(-1, [], None, None)
  const NO_MALFORMED: ServedMalformed := ServedMalformed("", None, None, None)

  function AnchorAt(table: map<string, Anchor>): string -> ServedAnchor {
    (id: string) => if id in table then AsServed(table[id]) else NO_ANCHOR
  }

  function ConflictAt(table: map<string, Conflict>): string -> ServedConflict {
    (id: string) => if id in table then AsServedConflict(table[id]) else NO_CONFLICT
  }

  function MalformedAt(table: map<string, Malformed>): string -> ServedMalformed {
    (id: string) => if id in table then AsServedMalformed(table[id]) else NO_MALFORMED
  }

  /** `ids` names the kept rows of a table, each once, in some order. */
  ghost predicate Lists<T>(table: map<string, T>, keep: T -> bool, ids: seq<string>) {
    NoDup(ids) && forall id :: id in ids <==> id in table && keep(table[id])
  }

  function OfStream(streamId: Bytes): Anchor -> bool { (a: Anchor) => a.stream == streamId }

  function ConflictOf(streamId: Bytes): Conflict -> bool { (c: Conflict) => c.stream == streamId }

  function Every(): Malformed -> bool { (m: Malformed) => true }

  /** The order a query happens to answer in. */
  datatype Listing = Listing(anchors: seq<string>, conflicts: seq<string>, malformed: seq<string>)

  ghost predicate IsListing(st: Store, streamId: Bytes, l: Listing) {
    && Lists(st.anchors, OfStream(streamId), l.anchors)
    && Lists(st.conflicts, ConflictOf(streamId), l.conflicts)
    && Lists(st.malformed, Every(), l.malformed)
  }

  function ViewOf(st: Store, streamId: Bytes, l: Listing): ServedIndex {
    ServedIndex(streamId, Map(AnchorAt(st.anchors), l.anchors), Map(ConflictAt(st.conflicts), l.conflicts),
                Map(MalformedAt(st.malformed), l.malformed))
  }
}

/** The store, viewed at one stream, and the raw scan hold the same things. */
module IndexRefinesScan {
  import opened Basics
  import opened ByteCodec
  import opened ServedIndexes
  import opened AnchorIndexes
  import opened StoreInvariants
  import opened Conservation
  import opened ConflictEntities
  import opened ChainScan
  import opened IndexComparison
  import opened IndexViews

  // ----- the scan, step by step over posts ------------------------------------------

  function ScanPost(streamId: Bytes, s: Scan, p: Post): Scan {
    match p
    case Skipped => s
    case Undecodable(id, entity) => s.(malformed := s.malformed + [AsServedMalformed(entity)])
    case Position(a) =>
      if a.stream != streamId then s
      else if a.seqNo !in s.anchors then
        s.(order := s.order + [a.seqNo], anchors := s.anchors[a.seqNo := AsServed(a)])
      else if s.anchors[a.seqNo].envelopeDigest == a.envelopeDigest then
        var existing := s.anchors[a.seqNo];
        s.(anchors := s.anchors[a.seqNo := existing.(duplicateCount := existing.duplicateCount + 1)])
      else s.(conflicts := s.conflicts + [AsServedConflict(AsConflict(a))])
  }

  function ScanPosts(streamId: Bytes, posts: seq<Post>, n: nat): Scan
    requires n <= |posts|
  {
    if n == 0 then NOTHING else ScanPost(streamId, ScanPosts(streamId, posts, n - 1), posts[n - 1])
  }

  lemma {:induction false} ClassifyReads(keccak: Hash, streamId: Bytes, s: Scan, call: Call)
    ensures Classify(keccak, streamId, s, call) == ScanPost(streamId, s, Read(keccak, call, Honest))
  {}

  lemma {:induction false} ScanReads(keccak: Hash, streamId: Bytes, calls: seq<Call>, n: nat)
    requires n <= |calls|
    ensures ScanTo(keccak, streamId, calls, n) == ScanPosts(streamId, Posts(keccak, calls, Honest), n)
  {
    hide Classify, ScanPost, Read;
    if n > 0 {
      ScanReads(keccak, streamId, calls, n - 1);
      assert Posts(keccak, calls, Honest)[n - 1] == Read(keccak, calls[n - 1], Honest);
      ClassifyReads(keccak, streamId, ScanTo(keccak, streamId, calls, n - 1), calls[n - 1]);
    }
  }

  // ----- anchors ------------------------------------------------------------------------

  /** Position `q` of the stream: both sides hold it with the same fields, or neither does. */
  ghost predicate MatchAt(st: Store, s: Scan, streamId: Bytes, q: nat) {
    if q in s.anchors
    then AnchorId(streamId, q) in st.anchors && s.anchors[q] == AsServed(st.anchors[AnchorId(streamId, q)])
    else AnchorId(streamId, q) !in st.anchors
  }

  ghost predicate AnchorsMatch(st: Store, s: Scan, streamId: Bytes) {
    && (forall q: nat :: MatchAt(st, s, streamId, q))
    && (forall q :: q in s.anchors ==> q >= 0)
    && NoDup(s.order) && forall q :: q in s.order <==> q in s.anchors
  }

  lemma {:induction false} AnchorIdsDiffer(s: Bytes, m: nat, t: Bytes, n: nat)
    requires |s| == |t| && (s != t || m != n)
    ensures AnchorId(s, m) != AnchorId(t, n)
  {
    if AnchorId(s, m) == AnchorId(t, n) { AnchorIdInjective(s, m, t, n); }
  }

  lemma {:induction false} OtherPositionStays(st: Store, s: Scan, streamId: Bytes, a: Anchor, q: nat)
    requires MatchAt(st, s, streamId, q) && |streamId| == |a.stream|
    requires a.stream != streamId || q != a.seqNo
    ensures MatchAt(Record(st, a), ScanPost(streamId, s, Position(a)), streamId, q)
  {
    AnchorIdsDiffer(streamId, q, a.stream, a.seqNo);
  }

  lemma {:induction false} OwnPositionMatches(st: Store, s: Scan, a: Anchor)
    requires MatchAt(st, s, a.stream, a.seqNo) && a.duplicateCount == 0
    ensures MatchAt(Record(st, a), ScanPost(a.stream, s, Position(a)), a.stream, a.seqNo)
  {}

  lemma {:induction false} OrderStays(st: Store, s: Scan, streamId: Bytes, a: Anchor)
    requires AnchorsMatch(st, s, streamId)
    ensures var s' := ScanPost(streamId, s, Position(a));
            && (forall q :: q in s'.anchors ==> q >= 0) && NoDup(s'.order) && forall q :: q in s'.order <==> q in s'.anchors
  {}

  lemma {:induction false} AnchorsStayMatched(st: Store, s: Scan, streamId: Bytes, a: Anchor)
    requires AnchorsMatch(st, s, streamId) && |streamId| == |a.stream|
    requires a.duplicateCount == 0
    ensures AnchorsMatch(Record(st, a), ScanPost(streamId, s, Position(a)), streamId)
  {
    forall q: nat ensures MatchAt(Record(st, a), ScanPost(streamId, s, Position(a)), streamId, q) {
      assert MatchAt(st, s, streamId, q);
      if a.stream == streamId && q == a.seqNo { OwnPositionMatches(st, s, a); } else { OtherPositionStays(st, s, streamId, a, q); }
    }
    OrderStays(st, s, streamId, a);
  }

  lemma {:induction false} AnchorsUntouched(st: Store, s: Scan, streamId: Bytes, p: Post)
    requires AnchorsMatch(st, s, streamId) && !p.Position?
    ensures AnchorsMatch(Apply(st, p), ScanPost(streamId, s, p), streamId)
  {
    forall q: nat ensures MatchAt(Apply(st, p), ScanPost(streamId, s, p), streamId, q) { assert MatchAt(st, s, streamId, q); }
  }

  lemma {:induction false} AnchorsFollow(keccak: Hash, posts: seq<Post>, streamId: Bytes, n: nat)
    requires n <= |posts| && PostsSound(keccak, posts) && |streamId| == 32
    ensures AnchorsMatch(Run(posts, n), ScanPosts(streamId, posts, n), streamId)
  {
    if n > 0 {
      AnchorsFollow(keccak, posts, streamId, n - 1);
      assert PostSound(keccak, posts[n - 1]);
      var st, s := Run(posts, n - 1), ScanPosts(streamId, posts, n - 1);
      match posts[n - 1] {
        case Position(a) => AnchorsStayMatched(st, s, streamId, a);
        case _ => AnchorsUntouched(st, s, streamId, posts[n - 1]);
      }
    }
  }

  // ----- conflicts -------------------------------------------------------------------------

  ghost predicate ConflictsMatch(st: Store, s: Scan, streamId: Bytes, ids: seq<string>) {
    Lists(st.conflicts, ConflictOf(streamId), ids) && s.conflicts == Map(ConflictAt(st.conflicts), ids)
  }

  lemma {:induction false} ConflictJoins(table: map<string, Conflict>, streamId: Bytes, ids: seq<string>, id: string, c: Conflict)
    requires Lists(table, ConflictOf(streamId), ids) && id !in table
    ensures var ids' := if c.stream == streamId then ids + [id] else ids;
            && Lists(table[id := c], ConflictOf(streamId), ids')
            && Map(ConflictAt(table[id := c]), ids') ==
                 if c.stream == streamId then Map(ConflictAt(table), ids) + [AsServedConflict(c)]
                 else Map(ConflictAt(table), ids)
  {
    assert id !in ids;
    assert forall k :: k in ids ==> ConflictAt(table[id := c])(k) == ConflictAt(table)(k);
  }

  /** A conflict of another stream, filed over whatever was there, leaves this stream's listing as it was. */
  lemma ConflictElsewhere(table: map<string, Conflict>, streamId: Bytes, ids: seq<string>, id: string, c: Conflict)
    requires Lists(table, ConflictOf(streamId), ids) && c.stream != streamId
    requires id in table ==> table[id].stream != streamId
    ensures Lists(table[id := c], ConflictOf(streamId), ids)
    ensures Map(ConflictAt(table[id := c]), ids) == Map(ConflictAt(table), ids)
  {
    assert id !in ids;
  }

  /** A key in the table stands for the stream it names. */
  lemma {:induction false} KeyNamesStream(st: Store, a: Anchor)
    requires ConflictsSound(st) && |a.stream| == 32 && ConflictId(a.stream, a.seqNo, a.txHash) in st.conflicts
    ensures st.conflicts[ConflictId(a.stream, a.seqNo, a.txHash)].stream == a.stream
  {
    var key := ConflictId(a.stream, a.seqNo, a.txHash);
    var c := st.conflicts[key];
    assert ConflictSound(key, c);
    ConflictIdInjective(c.stream, c.seqNo, c.txHash, a.stream, a.seqNo, a.txHash);
  }

  /** Both sides see the same competitors: the scan lists one conflict more exactly if the post competes for the stream. */
  lemma ScanCompetes(st: Store, s: Scan, streamId: Bytes, p: Post)
    requires AnchorsMatch(st, s, streamId)
    ensures ScanPost(streamId, s, p).conflicts ==
              s.conflicts + if CompetesFor(st, p, streamId) then [AsServedConflict(AsConflict(p.anchor))] else []
  {
    if p.Position? && p.anchor.stream == streamId { assert MatchAt(st, s, streamId, p.anchor.seqNo); }
  }

  lemma {:induction false} ConflictsFollow(keccak: Hash, posts: seq<Post>, streamId: Bytes, n: nat) returns (ids: seq<string>)
    requires n <= |posts| && PostsSound(keccak, posts) && |streamId| == 32 && DistinctFor(posts, n, streamId)
    ensures ConflictsMatch(Run(posts, n), ScanPosts(streamId, posts, n), streamId, ids)
  {
    ids := [];
    if n > 0 {
      hide DistinctFor, CompetesAt, AnchorsMatch, Apply, ScanPost, ConflictsMatch;
      var k := n - 1;
      DistinctNext(keccak, posts, k, n, streamId);
      ids := ConflictsFollow(keccak, posts, streamId, k);
      AnchorsFollow(keccak, posts, streamId, k);
      RunKeepsConflicts(keccak, posts, k);
      assert PostSound(keccak, posts[k]);
      KeysFor(keccak, posts, k, streamId, ConflictKey(posts[k]));
      ids := PostConflicts(keccak, Run(posts, k), ScanPosts(streamId, posts, k), streamId, ids, posts[k]) by {
        assert CompetesFor(Run(posts, k), posts[k], streamId) <==> CompetesAt(posts, k, streamId);
      }
    }
  }

  lemma {:induction false} PostConflicts(keccak: Hash, st: Store, s: Scan, streamId: Bytes, ids: seq<string>, p: Post)
    returns (ids': seq<string>)
    requires ConflictsMatch(st, s, streamId, ids) && AnchorsMatch(st, s, streamId)
    requires ConflictsSound(st) && PostSound(keccak, p)
    requires CompetesFor(st, p, streamId) ==> ConflictKey(p) !in ConflictsOf(st, streamId)
    ensures ConflictsMatch(Apply(st, p), ScanPost(streamId, s, p), streamId, ids')
  {
    hide AnchorsMatch, ConflictsSound, ScanPost;
    ids' := ids;
    ScanCompetes(st, s, streamId, p);
    if p.Position? && CompetesIn(st, p.anchor) {
      var key := ConflictId(p.anchor.stream, p.anchor.seqNo, p.anchor.txHash);
      if key in st.conflicts { KeyNamesStream(st, p.anchor); }
      if p.anchor.stream == streamId {
        ConflictJoins(st.conflicts, streamId, ids, key, AsConflict(p.anchor));
        ids' := ids + [key];
      } else {
        ConflictElsewhere(st.conflicts, streamId, ids, key, AsConflict(p.anchor));
      }
    }
  }

  /** The scan lists as many conflicts as the stream's counter says. */
  lemma {:induction false} ScanCountsConflicts(keccak: Hash, posts: seq<Post>, streamId: Bytes, n: nat)
    requires n <= |posts| && PostsSound(keccak, posts) && |streamId| == 32
    ensures |ScanPosts(streamId, posts, n).conflicts| == ConflictCount(Run(posts, n), streamId)
  {
    if n > 0 {
      hide Apply, AnchorsMatch, ScanPost;
      var k := n - 1;
      ScanCountsConflicts(keccak, posts, streamId, k);
      AnchorsFollow(keccak, posts, streamId, k);
      TableNext(keccak, posts, k, n, streamId);
      ScanCompetes(Run(posts, k), ScanPosts(streamId, posts, k), streamId, posts[k]);
    }
  }

  // ----- malformed posts -----------------------------------------------------------------------

  ghost predicate MalformedMatch(st: Store, s: Scan, ids: seq<string>) {
    Lists(st.malformed, Every(), ids) && s.malformed == Map(MalformedAt(st.malformed), ids)
  }

  lemma {:induction false} MalformedJoins(table: map<string, Malformed>, ids: seq<string>, id: string, m: Malformed)
    requires Lists(table, Every(), ids) && id !in table
    ensures Lists(table[id := m], Every(), ids + [id])
    ensures Map(MalformedAt(table[id := m]), ids + [id]) == Map(MalformedAt(table), ids) + [AsServedMalformed(m)]
  {
    assert id !in ids;
    assert forall k :: k in ids ==> MalformedAt(table[id := m])(k) == MalformedAt(table)(k);
  }

  lemma {:induction false} NotPostedYet(posts: seq<Post>, k: nat)
    requires DistinctIds(posts, |posts|) && k < |posts| && posts[k].Undecodable?
    ensures posts[k].id !in Run(posts, k).malformed
  {
    hide Run;
    MalformedKeys(posts, k, posts[k].id);
    assert UndecodableAt(posts, k);
  }

  lemma {:induction false} MalformedFollow(posts: seq<Post>, streamId: Bytes, n: nat) returns (ids: seq<string>)
    requires n <= |posts| && DistinctIds(posts, |posts|)
    ensures MalformedMatch(Run(posts, n), ScanPosts(streamId, posts, n), ids)
  {
    ids := [];
    if n > 0 {
      ids := MalformedFollow(posts, streamId, n - 1);
      var st, p := Run(posts, n - 1), posts[n - 1];
      if p.Undecodable? {
        NotPostedYet(posts, n - 1);
        MalformedJoins(st.malformed, ids, p.id, p.entity);
        ids := ids + [p.id];
      }
    }
  }

  /** The scan lists every malformed post; the table holds as many exactly if no two share an id. */
  lemma {:induction false} ScanCountsMalformed(posts: seq<Post>, streamId: Bytes, n: nat)
    requires n <= |posts|
    ensures |Run(posts, n).malformed| <= |ScanPosts(streamId, posts, n).malformed|
    ensures |Run(posts, n).malformed| == |ScanPosts(streamId, posts, n).malformed| <==> DistinctIds(posts, n)
  {
    if n > 0 {
      hide Run, ScanPosts, DistinctIds, Posted;
      var k := n - 1;
      ScanCountsMalformed(posts, streamId, k);
      DistinctIdsNext(posts, k, n);
      MalformedNext(posts, streamId, k, n);
    }
  }

  lemma {:induction false} MalformedNext(posts: seq<Post>, streamId: Bytes, k: nat, n: nat)
    requires k + 1 == n <= |posts|
    ensures |ScanPosts(streamId, posts, n).malformed| ==
              |ScanPosts(streamId, posts, k).malformed| + if posts[k].Undecodable? then 1 else 0
    ensures |Run(posts, n).malformed| ==
              |Run(posts, k).malformed| + if posts[k].Undecodable? && !Posted(posts, k, posts[k].id) then 1 else 0
  {
    hide Posted, Apply, ScanPost;
    ScanSeesMalformed(streamId, ScanPosts(streamId, posts, k), posts[k]);
    TableTakesMalformed(Run(posts, k), posts[k]);
    if posts[k].Undecodable? { MalformedKeys(posts, k, posts[k].id); }
  }

  lemma ScanSeesMalformed(streamId: Bytes, s: Scan, p: Post)
    ensures |ScanPost(streamId, s, p).malformed| == |s.malformed| + if p.Undecodable? then 1 else 0
  {}

  lemma TableTakesMalformed(st: Store, p: Post)
    ensures |Apply(st, p).malformed| == |st.malformed| + if p.Undecodable? && p.id !in st.malformed then 1 else 0
  {
    hide Record;
    match p
    case Skipped =>
    case Position(a) => RecordKeepsMalformed(st, a);
    case Undecodable(id, entity) =>
      assert Apply(st, p).malformed.Keys == st.malformed.Keys + {id};
      SizesAreKeys(st);
      SizesAreKeys(Apply(st, p));
  }

  lemma RecordKeepsMalformed(st: Store, a: Anchor)
    ensures Record(st, a).malformed == st.malformed
  {}

  // ----- the refinement -----------------------------------------------------------------------------

  /** The same rows on both sides, up to order; the anchors in the same order once sorted by position. */
  ghost predicate SameIndex(view: ServedIndex, scan: ServedIndex) {
    && view.streamId == scan.streamId
    && Sort(ByIntKey(ServedSeq()), view.anchors) == scan.anchors
    && multiset(view.anchors) == multiset(scan.anchors)
    && multiset(view.conflicts) == multiset(scan.conflicts)
    && multiset(view.malformed) == multiset(scan.malformed)
  }

  lemma {:induction false} ListedOnce<T(!new), U>(table: map<string, T>, keep: T -> bool, xs: seq<string>, ys: seq<string>, f: string -> U)
    requires Lists(table, keep, xs) && Lists(table, keep, ys)
    ensures multiset(Map(f, xs)) == multiset(Map(f, ys))
  {
    SameElements(xs, ys);
    MapPermutes(f, xs, ys);
  }

  lemma {:induction false} ListedAnchor(keccak: Hash, st: Store, s: Scan, streamId: Bytes, ids: seq<string>, id: string)
    requires Sound(keccak, st) && AnchorsMatch(st, s, streamId) && Lists(st.anchors, OfStream(streamId), ids) && id in ids
    ensures id in st.anchors && id == AnchorId(streamId, st.anchors[id].seqNo)
    ensures st.anchors[id].seqNo in s.anchors && s.anchors[st.anchors[id].seqNo] == AsServed(st.anchors[id])
  {
    var a := st.anchors[id];
    assert AnchorSound(keccak, id, a);
    assert OfStream(streamId)(a);
    assert MatchAt(st, s, streamId, a.seqNo);
  }

  lemma {:induction false} ScannedAnchorListed(keccak: Hash, st: Store, s: Scan, streamId: Bytes, ids: seq<string>, q: int)
    requires Sound(keccak, st) && AnchorsMatch(st, s, streamId) && Lists(st.anchors, OfStream(streamId), ids)
    requires |streamId| == 32 && q in s.anchors
    ensures q >= 0 && AnchorId(streamId, q) in ids && s.anchors[q] == AnchorAt(st.anchors)(AnchorId(streamId, q))
  {
    assert MatchAt(st, s, streamId, q);
    var id := AnchorId(streamId, q);
    var a := st.anchors[id];
    assert AnchorSound(keccak, id, a);
    DecodedStreamId(a.envelope);
    AnchorIdInjective(a.stream, a.seqNo, streamId, q);
    assert OfStream(streamId)(a);
  }

  lemma {:induction false} ViewAnchors(keccak: Hash, st: Store, s: Scan, streamId: Bytes, ids: seq<string>)
    requires Sound(keccak, st) && AnchorsMatch(st, s, streamId) && Lists(st.anchors, OfStream(streamId), ids)
    requires |streamId| == 32
    ensures var view := Map(AnchorAt(st.anchors), ids);
            Sort(ByIntKey(ServedSeq()), view) == Sort(ByIntKey(ServedSeq()), Map(Lookup(s.anchors), s.order))
    ensures multiset(Map(AnchorAt(st.anchors), ids)) == multiset(Map(Lookup(s.anchors), s.order))
    ensures NoDup(Map(ServedSeq(), Map(AnchorAt(st.anchors), ids)))
  {
    var view, scan := Map(AnchorAt(st.anchors), ids), Map(Lookup(s.anchors), s.order);
    ScanDistinct(keccak, st, s, streamId);
    ViewDistinct(keccak, st, s, streamId, ids);
    forall x ensures x in view <==> x in scan {
      if x in view {
        var i :| 0 <= i < |ids| && view[i] == x;
        ListedAnchor(keccak, st, s, streamId, ids, ids[i]);
        var q := st.anchors[ids[i]].seqNo;
        var k :| 0 <= k < |s.order| && s.order[k] == q;
        assert scan[k] == x;
      }
      if x in scan {
        var k :| 0 <= k < |s.order| && scan[k] == x;
        var q: int := s.order[k];
        assert q in s.order;
        ScannedAnchorListed(keccak, st, s, streamId, ids, q);
        var i :| 0 <= i < |ids| && ids[i] == AnchorId(streamId, q);
        assert view[i] == x;
      }
    }
    SameRowsSort(view, scan);
  }

  lemma {:induction false} SameRowsSort(xs: seq<ServedAnchor>, ys: seq<ServedAnchor>)
    requires NoDup(Map(ServedSeq(), xs)) && NoDup(Map(ServedSeq(), ys))
    requires forall x :: x in xs <==> x in ys
    ensures Sort(ByIntKey(ServedSeq()), xs) == Sort(ByIntKey(ServedSeq()), ys)
    ensures multiset(xs) == multiset(ys)
  {
    SortIncreases(ServedSeq(), xs);
    SortIncreases(ServedSeq(), ys);
    DistinctImages(ServedSeq(), xs);
    DistinctImages(ServedSeq(), ys);
    SameElements(xs, ys);
    IncreasingUnique(ServedSeq(), Sort(ByIntKey(ServedSeq()), xs), Sort(ByIntKey(ServedSeq()), ys));
  }

  lemma {:induction false} DistinctImages<T, U>(f: T -> U, xs: seq<T>)
    requires NoDup(Map(f, xs))
    ensures NoDup(xs)
  {
    forall i, j | 0 <= i < j < |xs| ensures xs[i] != xs[j] { assert Map(f, xs)[i] != Map(f, xs)[j]; }
  }

  lemma {:induction false} ScanSeq(keccak: Hash, st: Store, s: Scan, streamId: Bytes, q: int)
    requires Sound(keccak, st) && AnchorsMatch(st, s, streamId) && |streamId| == 32 && q in s.anchors
    ensures s.anchors[q].seqNo == q
  {
    assert MatchAt(st, s, streamId, q);
    var a := st.anchors[AnchorId(streamId, q)];
    assert AnchorSound(keccak, AnchorId(streamId, q), a);
    DecodedStreamId(a.envelope);
    AnchorIdInjective(a.stream, a.seqNo, streamId, q);
  }

  lemma {:induction false} ScanDistinct(keccak: Hash, st: Store, s: Scan, streamId: Bytes)
    requires Sound(keccak, st) && AnchorsMatch(st, s, streamId) && |streamId| == 32
    ensures NoDup(Map(ServedSeq(), Map(Lookup(s.anchors), s.order)))
  {
    var seqs := Map(ServedSeq(), Map(Lookup(s.anchors), s.order));
    forall k | 0 <= k < |s.order| ensures seqs[k] == s.order[k] {
      var q: int := s.order[k];
      assert q in s.order;
      ScanSeq(keccak, st, s, streamId, q);
    }
  }

  lemma {:induction false} ViewDistinct(keccak: Hash, st: Store, s: Scan, streamId: Bytes, ids: seq<string>)
    requires Sound(keccak, st) && AnchorsMatch(st, s, streamId) && Lists(st.anchors, OfStream(streamId), ids)
    ensures NoDup(Map(ServedSeq(), Map(AnchorAt(st.anchors), ids)))
  {
    var seqs := Map(ServedSeq(), Map(AnchorAt(st.anchors), ids));
    forall i | 0 <= i < |ids| ensures seqs[i] >= 0 && ids[i] == AnchorId(streamId, seqs[i]) {
      ListedAnchor(keccak, st, s, streamId, ids, ids[i]);
    }
    forall i, j | 0 <= i < j < |ids| ensures seqs[i] != seqs[j] { assert ids[i] != ids[j]; }
  }

  /** Nothing the view shows was overwritten: no two malformed posts share an id, and no two posts that compete for the
      stream share position and transaction. */
  ghost predicate NothingLost(posts: seq<Post>, streamId: Bytes) {
    DistinctIds(posts, |posts|) && DistinctFor(posts, |posts|, streamId)
  }

  ghost predicate SameAnchorRows(view: ServedIndex, scan: ServedIndex) {
    && Sort(ByIntKey(ServedSeq()), view.anchors) == scan.anchors
    && multiset(view.anchors) == multiset(scan.anchors)
    && NoDup(Map(ServedSeq(), view.anchors))
  }

  /** Whatever was posted: the store viewed at a stream, in whatever order the query answers, has the raw scan's anchors
      and duplicate counts. It has all the scan has, and the cross-check reports no difference, if and only if nothing the
      view shows was overwritten. */
  lemma {:induction false} IndexAgreesWithScan(keccak: Hash, calls: seq<Call>, streamId: Bytes, l: Listing)
    requires |streamId| == 32
    requires IsListing(Run(Posts(keccak, calls, Honest), |calls|), streamId, l)
    ensures var view := ViewOf(Run(Posts(keccak, calls, Honest), |calls|), streamId, l);
            var scan := Scanned(streamId, ScanTo(keccak, streamId, calls, |calls|));
            && SameAnchorRows(view, scan)
            && (SameIndex(view, scan) <==> NothingLost(Posts(keccak, calls, Honest), streamId))
            && (Differences(view, scan) == [] <==> NothingLost(Posts(keccak, calls, Honest), streamId))
  {
    hide Run, ScanTo, SameIndex, NothingLost, Posts, ViewOf, Scanned, IsListing, NoDup;
    var posts := Posts(keccak, calls, Honest);
    var view, scan := ViewOf(Run(posts, |posts|), streamId, l), Scanned(streamId, ScanTo(keccak, streamId, calls, |calls|));
    AnchorsAgree(keccak, calls, streamId, l);
    if NothingLost(posts, streamId) { NothingLostAgrees(keccak, calls, streamId, l); }
    if SameIndex(view, scan) { SameIndexNoDifference(view, scan); }
    if Differences(view, scan) == [] {
      NoDifferences(view, scan);
      CountsAgree(keccak, calls, streamId, l);
    }
  }

  lemma {:induction false} AnchorsAgree(keccak: Hash, calls: seq<Call>, streamId: Bytes, l: Listing)
    requires |streamId| == 32
    requires IsListing(Run(Posts(keccak, calls, Honest), |calls|), streamId, l)
    ensures SameAnchorRows(ViewOf(Run(Posts(keccak, calls, Honest), |calls|), streamId, l),
                           Scanned(streamId, ScanTo(keccak, streamId, calls, |calls|)))
  {
    hide Run, Sound, ScanPosts, AnchorsMatch;
    var posts, n := Posts(keccak, calls, Honest), |calls|;
    ScanReads(keccak, streamId, calls, n);
    CallsReadSound(keccak, calls, Honest);
    ReachableStoresAreSound(keccak, calls, Honest, n);
    AnchorsFollow(keccak, posts, streamId, n);
    var s := ScanPosts(streamId, posts, n);
    ViewAnchors(keccak, Run(posts, n), s, streamId, l.anchors);
    SortIncreases(ServedSeq(), Map(Lookup(s.anchors), s.order));
  }

  lemma {:induction false} NothingLostAgrees(keccak: Hash, calls: seq<Call>, streamId: Bytes, l: Listing)
    requires |streamId| == 32 && NothingLost(Posts(keccak, calls, Honest), streamId)
    requires IsListing(Run(Posts(keccak, calls, Honest), |calls|), streamId, l)
    ensures SameIndex(ViewOf(Run(Posts(keccak, calls, Honest), |calls|), streamId, l),
                      Scanned(streamId, ScanTo(keccak, streamId, calls, |calls|)))
  {
    hide Run, ScanPosts, DistinctIds, DistinctFor;
    var posts, n := Posts(keccak, calls, Honest), |calls|;
    var st := Run(posts, n);
    ScanReads(keccak, streamId, calls, n);
    CallsReadSound(keccak, calls, Honest);
    AnchorsAgree(keccak, calls, streamId, l);
    var conflictIds := ConflictsFollow(keccak, posts, streamId, n);
    ListedOnce(st.conflicts, ConflictOf(streamId), l.conflicts, conflictIds, ConflictAt(st.conflicts));
    var malformedIds := MalformedFollow(posts, streamId, n);
    ListedOnce(st.malformed, Every(), l.malformed, malformedIds, MalformedAt(st.malformed));
  }

  /** The two counts agree only if nothing was overwritten. */
  lemma {:induction false} CountsAgree(keccak: Hash, calls: seq<Call>, streamId: Bytes, l: Listing)
    requires |streamId| == 32
    requires IsListing(Run(Posts(keccak, calls, Honest), |calls|), streamId, l)
    requires var view := ViewOf(Run(Posts(keccak, calls, Honest), |calls|), streamId, l);
             var scan := Scanned(streamId, ScanTo(keccak, streamId, calls, |calls|));
             |view.conflicts| == |scan.conflicts| && |view.malformed| == |scan.malformed|
    ensures NothingLost(Posts(keccak, calls, Honest), streamId)
  {
    hide Run, ScanPosts, DistinctIds, DistinctFor, ConflictCount;
    var posts, n := Posts(keccak, calls, Honest), |calls|;
    var st := Run(posts, n);
    ScanReads(keccak, streamId, calls, n);
    CallsReadSound(keccak, calls, Honest);
    ScanCountsConflicts(keccak, posts, streamId, n);
    ScanCountsMalformed(posts, streamId, n);
    EntitiesAgainstCounter(keccak, calls, Honest, n, streamId);
    ListedAll(l.conflicts, ConflictsOf(st, streamId));
    ListedAll(l.malformed, st.malformed.Keys);
    SizesAreKeys(st);
  }

  lemma ListedAll(ids: seq<string>, keys: set<string>)
    requires NoDup(ids) && forall id :: id in ids <==> id in keys
    ensures |ids| == |keys|
  {
    DistinctCount(ids);
    assert Elements(ids) == keys;
  }

  /** In particular when no transaction makes two calls. */
  lemma {:induction false} OneCallATransactionAgrees(keccak: Hash, calls: seq<Call>, streamId: Bytes)
    requires DistinctHashes(calls)
    ensures NothingLost(Posts(keccak, calls, Honest), streamId)
  {
    hide CompetesIn, Run;
    var posts := Posts(keccak, calls, Honest);
    forall i, j | 0 <= i < j < |posts| && posts[i].Undecodable? && posts[j].Undecodable? ensures posts[i].id != posts[j].id {
      IdsDiffer(keccak, calls[i], calls[j]);
    }
    forall i, j | 0 <= i < j < |posts| && posts[i].Position? && posts[j].Position?
      ensures posts[i].anchor.txHash != posts[j].anchor.txHash
    {
      assert calls[i].txHash != calls[j].txHash;
    }
  }

  lemma {:induction false} SameIndexNoDifference(view: ServedIndex, scan: ServedIndex)
    requires SameIndex(view, scan) && NoDup(Map(ServedSeq(), view.anchors))
    ensures Differences(view, scan) == []
  {
    assert |multiset(view.conflicts)| == |view.conflicts| && |multiset(scan.conflicts)| == |scan.conflicts|;
    assert |multiset(view.malformed)| == |view.malformed| && |multiset(scan.malformed)| == |scan.malformed|;
    SortIncreases(ServedSeq(), view.anchors);
    SameRowsSameMap(view.anchors, scan.anchors);
    NoDifferences(view, scan);
  }

  lemma {:induction false} SameRowsSameMap(xs: seq<ServedAnchor>, ys: seq<ServedAnchor>)
    requires NoDup(Map(ServedSeq(), xs)) && forall x :: x in xs <==> x in ys
    ensures ByKey(ServedSeq(), xs) == ByKey(ServedSeq(), ys)
  {
    var left, right := ByKey(ServedSeq(), xs), ByKey(ServedSeq(), ys);
    ByKeyMember(ServedSeq(), xs);
    ByKeyMember(ServedSeq(), ys);
    forall s | s in left ensures s in right && right[s] == left[s] {
      assert left[s] in ys && ServedSeq()(left[s]) == s;
      OneRowAPosition(xs, left[s], right[s]);
    }
    forall s | s in right ensures s in left { assert right[s] in xs && ServedSeq()(right[s]) == s; }
  }

  lemma {:induction false} OneRowAPosition(xs: seq<ServedAnchor>, x: ServedAnchor, y: ServedAnchor)
    requires NoDup(Map(ServedSeq(), xs)) && x in xs && y in xs && x.seqNo == y.seqNo
    ensures x == y
  {
    var i :| 0 <= i < |xs| && xs[i] == x;
    var j :| 0 <= j < |xs| && xs[j] == y;
    assert Map(ServedSeq(), xs)[i] == Map(ServedSeq(), xs)[j];
  }
}
