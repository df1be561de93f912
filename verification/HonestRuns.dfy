/** Honest runs exist for every stream and every log: what the end-to-end results ask for can be had. */
module HonestRuns {
  import opened Basics
  import opened ByteCodec
  import opened AnchorStream
  import opened AnchorIndexes
  import opened StoreInvariants
  import opened IndexViews
  import opened EndToEnd

  // ----- records that make a whole stream ------------------------------------------------

  /** As many positions as records, all different, all below the count. */
  ghost predicate WholeStream(records: seq<RecordInput>) {
    NoDup(Map(RecordSeq(), records)) && forall r :: r in records ==> 0 <= r.seqNo < |records|
  }

  lemma {:induction false} AtLeastIndex(sorted: seq<RecordInput>, i: nat)
    requires Increasing(RecordSeq(), sorted) && i < |sorted| && sorted[0].seqNo >= 0
    ensures sorted[i].seqNo >= i
  {
    if i > 0 {
      AtLeastIndex(sorted, i - 1);
      assert RecordSeq()(sorted[i - 1]) < RecordSeq()(sorted[i]);
    }
  }

  lemma {:induction false} AtMostIndex(sorted: seq<RecordInput>, i: nat)
    requires Increasing(RecordSeq(), sorted) && i < |sorted| && sorted[|sorted| - 1].seqNo < |sorted|
    ensures sorted[i].seqNo <= i
    decreases |sorted| - i
  {
    if i < |sorted| - 1 {
      AtMostIndex(sorted, i + 1);
      assert RecordSeq()(sorted[i]) < RecordSeq()(sorted[i + 1]);
    }
  }

  lemma {:induction false} WholeSorted(records: seq<RecordInput>, i: nat)
    requires WholeStream(records) && i < |SortRecords(records)|
    ensures SortRecords(records)[i].seqNo == i
  {
    var sorted := SortRecords(records);
    SortedRecords(records);
    assert sorted[0] in sorted && sorted[|sorted| - 1] in sorted;
    AtLeastIndex(sorted, i);
    AtMostIndex(sorted, i);
  }

  lemma {:induction false} WholeFromSorted(records: seq<RecordInput>)
    requires NoDup(Map(RecordSeq(), records))
    requires forall i :: 0 <= i < |SortRecords(records)| ==> SortRecords(records)[i].seqNo == i
    ensures WholeStream(records)
  {
    SortedRecords(records);
    forall r | r in records ensures 0 <= r.seqNo < |records| {
      assert r in SortRecords(records);
      var i :| 0 <= i < |SortRecords(records)| && SortRecords(records)[i] == r;
    }
  }

  lemma {:induction false} ChainSeq(c: Crypto, key: Bytes, streamId: Bytes, sorted: seq<RecordInput>, i: nat)
    requires i < |sorted|
    ensures Chain(c, key, streamId, sorted)[i].seqNo == sorted[i].seqNo
  {
    ChainPositions(c, key, streamId, sorted, i);
  }

  /** Under a well-formed key and stream id, records publish a whole stream if and only if they make one. */
  lemma {:induction false} PublishesExactly(c: Crypto, key: Bytes, streamId: Bytes, records: seq<RecordInput>)
    requires |key| == 32 && |streamId| == 32 && |records| <= U64_LIMIT
    ensures Publishes(c, key, streamId, records, Chain(c, key, streamId, SortRecords(records))) <==> WholeStream(records)
  {
    var sorted := SortRecords(records);
    var published := Chain(c, key, streamId, sorted);
    forall i | 0 <= i < |sorted| ensures published[i].seqNo == sorted[i].seqNo { ChainSeq(c, key, streamId, sorted, i); }
    if WholeStream(records) {
      forall i | 0 <= i < |sorted| ensures published[i].seqNo == i { WholeSorted(records, i); }
      assert Refusal(key, streamId, records).None?;
    }
    if Publishes(c, key, streamId, records, published) {
      forall i | 0 <= i < |sorted| ensures sorted[i].seqNo == i { assert published[i].seqNo == i; }
      WholeFromSorted(records);
    }
  }

  // ----- the writer alone -----------------------------------------------------------------

  /** The writer's own posts, one a position, each in a transaction of its own number. */
  function WriterCalls(published: seq<ComputedAnchor>): (r: seq<Call>)
    requires forall i :: 0 <= i < |published| ==> published[i].envelope.Some?
    ensures |r| == |published|
  {
    seq(|published|, i requires 0 <= i < |published| =>
      Call(published[i].envelope.value, [], BigEndian(32, i), i, i))
  }

  lemma {:induction false} WriterCallAt(keccak: Hash, streamId: Bytes, published: seq<ComputedAnchor>, j: nat, s: nat)
    requires Enveloped(keccak, streamId, published) && j < |published|
    requires forall i :: 0 <= i < |published| ==> published[i].envelope.Some?
    ensures CallAt(WriterCalls(published)[j], streamId, s) <==> s == j
  {
    WriterDecodes(keccak, streamId, published, j);
  }

  /** Every published stream has an honest run: the writer alone posts it, and whatever the store then holds can be
      listed. */
  lemma {:induction false} SomeHonestRun(c: Crypto, key: Bytes, streamId: Bytes, records: seq<RecordInput>,
                                         published: seq<ComputedAnchor>, mode: Mode) returns (calls: seq<Call>, l: Listing)
    requires Publishes(c, key, streamId, records, published)
    ensures WriterFirst(calls, streamId, published) && OnlyWriter(calls, streamId, published)
    ensures |ContestedPositions(c.keccak, calls, mode, streamId, published)| == 0
    ensures IsListing(AnchorIndexes.Run(Posts(c.keccak, calls, mode), |calls|), streamId, l)
  {
    PublishedIsComplete(c, key, streamId, records, published);
    forall i | 0 <= i < |published| ensures published[i].envelope.Some? {
      WriterDecodes(c.keccak, streamId, published, i);
    }
    calls := WriterCalls(published);
    forall j: nat, s: nat | j < |calls| ensures CallAt(calls[j], streamId, s) <==> s == j {
      WriterCallAt(c.keccak, streamId, published, j, s);
    }
    forall s: nat | s < |published| ensures CalledBefore(calls, |calls|, streamId, s) {
      assert CallAt(calls[s], streamId, s);
    }
    OnlyWriterUncontested(c.keccak, calls, mode, streamId, published);
    var st := AnchorIndexes.Run(Posts(c.keccak, calls, mode), |calls|);
    var anchors := ListTable(st.anchors, OfStream(streamId), st.anchors.Keys);
    var conflicts := ListTable(st.conflicts, ConflictOf(streamId), st.conflicts.Keys);
    var malformed := ListTable(st.malformed, Every(), st.malformed.Keys);
    l := Listing(anchors, conflicts, malformed);
  }

  /** The kept rows of any table can be listed. */
  lemma {:induction false} ListTable<T>(table: map<string, T>, keep: T -> bool, keys: set<string>) returns (ids: seq<string>)
    requires keys <= table.Keys
    ensures NoDup(ids) && forall id :: id in ids <==> id in keys && keep(table[id])
    decreases |keys|
  {
    if keys == {} {
      ids := [];
    } else {
      var k :| k in keys;
      var rest := ListTable(table, keep, keys - {k});
      ids := if keep(table[k]) then rest + [k] else rest;
      forall id ensures id in ids <==> id in keys && keep(table[id]) { assert id in keys <==> id == k || id in keys - {k}; }
    }
  }
}

/** The bond side of the same: every log is some contract's, and every store can be served. */
module HonestBondRuns {
  import opened Basics
  import opened ByteCodec
  import opened BondMapping
  import opened BondContract
  import opened Merkle
  import opened ServedLog
  import opened BondReplay

  function Mints(ctx: EthCall, words: seq<Digest>): (r: seq<BondCall>)
    ensures |r| == |words|
  {
    seq(|words|, i requires 0 <= i < |words| => Mint(ctx, words[i]))
  }

  /** Any list of words is the array of a contract that reverted no call. */
  lemma {:induction false} MintHistory(h: PairHash<Digest>, ctx: EthCall, words: seq<Digest>, n: nat)
    requires n <= |words|
    ensures Played(h, Mints(ctx, words), n).Some?
    ensures Played(h, Mints(ctx, words), n).value.commitments == words[..n]
  {
    if n > 0 {
      MintHistory(h, ctx, words, n - 1);
      assert Mints(ctx, words)[n - 1] == Mint(ctx, words[n - 1]);
      assert words[..n] == words[..n - 1] + [words[n - 1]];
    }
  }

  lemma {:induction false} ListItems<T>(m: map<string, T>, keys: set<string>) returns (rows: seq<(string, T)>)
    requires keys <= m.Keys
    ensures NoDup(rows) && |rows| == |keys|
    ensures forall row :: row in rows <==> row.0 in keys && row.1 == m[row.0]
    decreases |keys|
  {
    if keys == {} {
      rows := [];
    } else {
      var k :| k in keys;
      var rest := ListItems(m, keys - {k});
      rows := rest + [(k, m[k])];
    }
  }

  /** Every store has an honest page. */
  lemma {:induction false} SomeHonestPage(s: BondStore) returns (anchorSet: AnchorSet)
    ensures ServesStore(anchorSet, s) && !anchorSet.hasIndexingErrors
  {
    var leaves := ListItems(s.commitments, s.commitments.Keys);
    var calls := ListItems(s.calls, s.calls.Keys);
    assert IsListing(leaves, s.commitments) && IsListing(calls, s.calls);
    anchorSet := AnchorSet(false, Map(LeafRow(), leaves), seq(|s.nullifiers|, i => ""), seq(|s.roots|, i => ""),
                           Map(CallRow(), calls));
  }
}
