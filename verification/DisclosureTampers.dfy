/** The two ways a disclosure lies, from the records to the verdict. */
module DisclosureTampers {
  import opened Basics
  import opened ByteCodec
  import opened AnchorStream
  import opened ServedIndexes
  import opened Verdicts
  import opened VerdictTheorems
  import opened EndToEnd

  /** The ciphertext digest a record anchors. */
  ghost function DigestOf(c: Crypto, key: Bytes, streamId: Bytes, r: RecordInput): Bytes {
    c.keccak(c.encrypt(key, streamId, r.seqNo, r.plaintext))
  }

  /** Anchor `a` is the anchor of record `r`. */
  ghost predicate Anchors(c: Crypto, key: Bytes, streamId: Bytes, a: ComputedAnchor, r: RecordInput) {
    a.seqNo == r.seqNo && a.ciphertextDigest == DigestOf(c, key, streamId, r)
  }

  lemma {:induction false} SortedAnchor(c: Crypto, key: Bytes, streamId: Bytes, records: seq<RecordInput>,
                                        anchors: seq<ComputedAnchor>, i: nat)
    requires Computed(c, key, streamId, records) == Ok(anchors) && i < |SortRecords(records)|
    ensures i < |anchors| && Anchors(c, key, streamId, anchors[i], SortRecords(records)[i])
  {
    ChainPositions(c, key, streamId, SortRecords(records), i);
  }

  /** Every anchor has its record ... */
  lemma {:induction false} RecordOf(c: Crypto, key: Bytes, streamId: Bytes, records: seq<RecordInput>,
                                    anchors: seq<ComputedAnchor>, i: nat) returns (r: RecordInput)
    requires Computed(c, key, streamId, records) == Ok(anchors) && i < |anchors|
    ensures r in records && Anchors(c, key, streamId, anchors[i], r)
  {
    SortedRecords(records);
    r := SortRecords(records)[i];
    SortedAnchor(c, key, streamId, records, anchors, i);
    assert r in SortRecords(records);
  }

  /** ... and every record its anchor. */
  lemma {:induction false} AnchorOf(c: Crypto, key: Bytes, streamId: Bytes, records: seq<RecordInput>,
                                    anchors: seq<ComputedAnchor>, r: RecordInput) returns (i: nat)
    requires Computed(c, key, streamId, records) == Ok(anchors) && r in records
    ensures i < |anchors| && Anchors(c, key, streamId, anchors[i], r)
  {
    SortedRecords(records);
    assert r in SortRecords(records);
    i :| 0 <= i < |SortRecords(records)| && SortRecords(records)[i] == r;
    SortedAnchor(c, key, streamId, records, anchors, i);
  }

  /** The disclosure `restated` has another digest for the position of `r`. */
  ghost predicate Restates(c: Crypto, key: Bytes, streamId: Bytes, restated: seq<RecordInput>, r: RecordInput) {
    exists q :: (q in restated && q.seqNo == r.seqNo && DigestOf(c, key, streamId, q) != DigestOf(c, key, streamId, r))
  }

  ghost function RestatedPositions(c: Crypto, key: Bytes, streamId: Bytes, records: seq<RecordInput>, restated: seq<RecordInput>): set<int> {
    set r | r in records && Restates(c, key, streamId, restated, r) :: r.seqNo
  }

  lemma {:induction false} RestatedIsARestatement(c: Crypto, key: Bytes, streamId: Bytes, records: seq<RecordInput>,
      published: seq<ComputedAnchor>, restated: seq<RecordInput>, expected: seq<ComputedAnchor>, r: RecordInput)
    requires Publishes(c, key, streamId, records, published) && Publishes(c, key, streamId, restated, expected)
    requires r in records && Restates(c, key, streamId, restated, r)
    ensures r.seqNo in Restatements(published, expected)
  {
    var q :| q in restated && q.seqNo == r.seqNo && DigestOf(c, key, streamId, q) != DigestOf(c, key, streamId, r);
    var i := AnchorOf(c, key, streamId, records, published, r);
    var j := AnchorOf(c, key, streamId, restated, expected, q);
    assert i == published[i].seqNo == r.seqNo && j == expected[j].seqNo == r.seqNo;
  }

  lemma {:induction false} RestatementIsRestated(c: Crypto, key: Bytes, streamId: Bytes, records: seq<RecordInput>,
      published: seq<ComputedAnchor>, restated: seq<RecordInput>, expected: seq<ComputedAnchor>, s: int)
    requires Publishes(c, key, streamId, records, published) && Publishes(c, key, streamId, restated, expected)
    requires s in Restatements(published, expected)
    ensures s in RestatedPositions(c, key, streamId, records, restated)
  {
    var r := RecordOf(c, key, streamId, records, published, s);
    var q := RecordOf(c, key, streamId, restated, expected, s);
    assert published[s].seqNo == s && expected[s].seqNo == s;
    assert Restates(c, key, streamId, restated, r);
  }

  lemma {:induction false} RestatedPositionsAre(c: Crypto, key: Bytes, streamId: Bytes, records: seq<RecordInput>,
      published: seq<ComputedAnchor>, restated: seq<RecordInput>, expected: seq<ComputedAnchor>)
    requires Publishes(c, key, streamId, records, published) && Publishes(c, key, streamId, restated, expected)
    ensures RestatedPositions(c, key, streamId, records, restated) == Restatements(published, expected)
  {
    var positions := RestatedPositions(c, key, streamId, records, restated);
    forall s | s in positions ensures s in Restatements(published, expected) {
      var r :| r in records && Restates(c, key, streamId, restated, r) && r.seqNo == s;
      RestatedIsARestatement(c, key, streamId, records, published, restated, expected, r);
    }
    forall s | s in Restatements(published, expected) ensures s in positions {
      RestatementIsRestated(c, key, streamId, records, published, restated, expected, s);
    }
  }

  lemma {:induction false} SameCount(c: Crypto, key: Bytes, streamId: Bytes, records: seq<RecordInput>, anchors: seq<ComputedAnchor>)
    requires Computed(c, key, streamId, records) == Ok(anchors)
    ensures |anchors| == |records|
  {
    SortedRecords(records);
  }

  /** Restating records: against an honest index, one ALTERED for each position whose digest changed,
      beside the conflicts served, exit 2 if any did. */
  lemma {:induction false} RestatedDisclosureIsNamed(c: Crypto, key: Bytes, records: seq<RecordInput>, published: seq<ComputedAnchor>,
      restated: seq<RecordInput>, expected: seq<ComputedAnchor>, served: ServedIndex)
    requires Publishes(c, key, served.streamId, records, published) && Publishes(c, key, served.streamId, restated, expected)
    requires |restated| == |records|
    requires Serves(served, PublishedRows(published))
    ensures var positions := RestatedPositions(c, key, served.streamId, records, restated);
            Reports(Compare(c.keccak, expected, served), At(ALTERED, positions) + Contests(served),
                    if positions == {} then 6 else 2)
  {
    PublishedIsComplete(c, key, served.streamId, records, published);
    PublishedIsComplete(c, key, served.streamId, restated, expected);
    SameCount(c, key, served.streamId, records, published);
    SameCount(c, key, served.streamId, restated, expected);
    RestatedPositionsAre(c, key, served.streamId, records, published, restated, expected);
    RestatedRecordsAreNamed(c.keccak, expected, served, published);
  }

  /** The positions of the records left out. */
  ghost function LeftOut(records: seq<RecordInput>, kept: seq<RecordInput>): set<int> {
    set r | r in records && r !in kept :: r.seqNo
  }

  lemma {:induction false} SamePositionSameRecord(c: Crypto, key: Bytes, streamId: Bytes, records: seq<RecordInput>,
                                                  r: RecordInput, q: RecordInput)
    requires Computed(c, key, streamId, records).Ok? && r in records && q in records && r.seqNo == q.seqNo
    ensures r == q
  {
    var i :| 0 <= i < |records| && records[i] == r;
    var j :| 0 <= j < |records| && records[j] == q;
    assert Map(RecordSeq(), records)[i] == Map(RecordSeq(), records)[j];
  }

  lemma {:induction false} KeptDigests(c: Crypto, key: Bytes, streamId: Bytes, records: seq<RecordInput>,
      published: seq<ComputedAnchor>, kept: seq<RecordInput>, expected: seq<ComputedAnchor>, i: nat)
    requires Publishes(c, key, streamId, records, published) && Computed(c, key, streamId, kept) == Ok(expected)
    requires (forall r :: r in kept ==> r in records) && i < |expected|
    ensures 0 <= expected[i].seqNo < |published|
    ensures expected[i].ciphertextDigest == published[expected[i].seqNo].ciphertextDigest
  {
    var q := RecordOf(c, key, streamId, kept, expected, i);
    var k := AnchorOf(c, key, streamId, records, published, q);
    assert published[k].seqNo == k;
  }

  lemma {:induction false} KeptIsDisclosed(c: Crypto, key: Bytes, streamId: Bytes, kept: seq<RecordInput>,
      expected: seq<ComputedAnchor>, r: RecordInput)
    requires Computed(c, key, streamId, kept) == Ok(expected) && r in kept
    ensures r.seqNo in ByKey(AnchorSeq(), expected)
  {
    ByKeyMember(AnchorSeq(), expected);
    var i := AnchorOf(c, key, streamId, kept, expected, r);
    assert expected[i] in expected && AnchorSeq()(expected[i]) in ByKey(AnchorSeq(), expected);
  }

  lemma {:induction false} DisclosedRecord(c: Crypto, key: Bytes, streamId: Bytes, kept: seq<RecordInput>,
      expected: seq<ComputedAnchor>, s: int) returns (q: RecordInput)
    requires Computed(c, key, streamId, kept) == Ok(expected) && s in ByKey(AnchorSeq(), expected)
    ensures q in kept && q.seqNo == s
  {
    ByKeyMember(AnchorSeq(), expected);
    var a := ByKey(AnchorSeq(), expected)[s];
    assert AnchorSeq()(a) == s;
    var i :| 0 <= i < |expected| && expected[i] == a;
    q := RecordOf(c, key, streamId, kept, expected, i);
  }

  lemma {:induction false} LeftOutAre(c: Crypto, key: Bytes, streamId: Bytes, records: seq<RecordInput>,
      published: seq<ComputedAnchor>, kept: seq<RecordInput>, expected: seq<ComputedAnchor>)
    requires Publishes(c, key, streamId, records, published) && Computed(c, key, streamId, kept) == Ok(expected)
    requires forall r :: r in kept ==> r in records
    ensures LeftOut(records, kept) == Suppressed(published, expected)
  {
    forall s | s in LeftOut(records, kept) ensures s in Suppressed(published, expected) {
      var r :| r in records && r !in kept && r.seqNo == s;
      var k := AnchorOf(c, key, streamId, records, published, r);
      assert published[k].seqNo == k;
      if s in ByKey(AnchorSeq(), expected) {
        var q := DisclosedRecord(c, key, streamId, kept, expected, s);
        SamePositionSameRecord(c, key, streamId, records, r, q);
      }
    }
    forall s | s in Suppressed(published, expected) ensures s in LeftOut(records, kept) {
      var r := RecordOf(c, key, streamId, records, published, s);
      assert published[s].seqNo == s;
      if r in kept { KeptIsDisclosed(c, key, streamId, kept, expected, r); }
    }
  }

  /** Leaving records out: against an honest index, one MISSING for each and one COUNT-MISMATCH, beside the
      conflicts served, exit 3. */
  lemma {:induction false} SuppressedDisclosureIsNamed(c: Crypto, key: Bytes, records: seq<RecordInput>, published: seq<ComputedAnchor>,
      kept: seq<RecordInput>, expected: seq<ComputedAnchor>, served: ServedIndex)
    requires Publishes(c, key, served.streamId, records, published) && Computed(c, key, served.streamId, kept) == Ok(expected)
    requires (forall r :: r in kept ==> r in records) && LeftOut(records, kept) != {}
    requires Serves(served, PublishedRows(published))
    ensures Reports(Compare(c.keccak, expected, served), Counted(MISSING, LeftOut(records, kept), served), 3)
  {
    PublishedIsComplete(c, key, served.streamId, records, published);
    ComputedIsWellChained(c, key, served.streamId, kept);
    forall i | 0 <= i < |expected|
      ensures 0 <= expected[i].seqNo < |published|
      ensures expected[i].ciphertextDigest == published[expected[i].seqNo].ciphertextDigest
    {
      KeptDigests(c, key, served.streamId, records, published, kept, expected, i);
    }
    LeftOutAre(c, key, served.streamId, records, published, kept, expected);
    SuppressedRecordsAreNamed(c.keccak, expected, served, published);
  }
}
