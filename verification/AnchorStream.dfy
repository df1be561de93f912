/** Recomputing a stream's anchors from records: anchor-core/stream.ts. */
module AnchorStream {
  import opened Basics
  import opened ByteCodec
  import opened Envelope

  /** The two library calls, kept abstract: every result holds for every choice of them. */
  datatype Crypto = Crypto(keccak: Hash, encrypt: (Bytes, Bytes, int, Bytes) -> Bytes)

  datatype RecordInput = RecordInput(seqNo: int, plaintext: Bytes)

  datatype ComputedAnchor = ComputedAnchor(
    seqNo: int,
    plaintext: Bytes,
    ciphertext: Bytes,
    ciphertextDigest: Bytes,
    prevEnvelopeDigest: Option<Bytes>,
    envelope: Option<Bytes>,
    envelopeDigest: Option<Bytes>)

  datatype StreamError = DuplicateSeq | StreamKeyLength | StreamIdLength | SeqOutOfRange

  function AnchorSeq(): ComputedAnchor -> int { (a: ComputedAnchor) => a.seqNo }

  function RecordSeq(): RecordInput -> int { (r: RecordInput) => r.seqNo }

  function EncryptRecord(c: Crypto, key: Bytes, streamId: Bytes, seqNo: int, plaintext: Bytes): Result<Bytes, StreamError> {
    if |key| != 32 then Err(StreamKeyLength)
    else if |streamId| != 32 then Err(StreamError.StreamIdLength)
    else if seqNo < 0 || seqNo >= U64_LIMIT then Err(StreamError.SeqOutOfRange)
    else Ok(c.encrypt(key, streamId, seqNo, plaintext))
  }

  // ----- specification ----------------------------------------------------------

  /** The anchor of `r` appended to the anchors of the lower positions: its backward link is
      resolved only if the record right below it was given and resolved itself. */
  function Next(c: Crypto, key: Bytes, streamId: Bytes, below: seq<ComputedAnchor>, r: RecordInput): ComputedAnchor {
    var ciphertext := c.encrypt(key, streamId, r.seqNo, r.plaintext);
    var digest := c.keccak(ciphertext);
    var prev := LinkBelow(below, r.seqNo);
    var envelope := if prev.None? then None
      else Some(Layout(EnvelopeFields(ENVELOPE_VERSION, streamId, r.seqNo, digest, prev.value)));
    ComputedAnchor(r.seqNo, r.plaintext, ciphertext, digest, prev, envelope,
                   if envelope.None? then None else Some(c.keccak(envelope.value)))
  }

  function LinkBelow(below: seq<ComputedAnchor>, seqNo: int): Option<Bytes> {
    if seqNo == 0 then Some(ZERO32)
    else if below != [] && below[|below| - 1].seqNo == seqNo - 1 then below[|below| - 1].envelopeDigest
    else None
  }

  function Chain(c: Crypto, key: Bytes, streamId: Bytes, records: seq<RecordInput>): (r: seq<ComputedAnchor>)
    ensures |r| == |records|
  {
    if records == [] then []
    else
      var below := Chain(c, key, streamId, records[..|records| - 1]);
      below + [Next(c, key, streamId, below, records[|records| - 1])]
  }

  function SortRecords(records: seq<RecordInput>): seq<RecordInput> {
    Sort(ByIntKey(RecordSeq()), records)
  }

  /** Which error stops the computation, if one does. */
  ghost function Refusal(key: Bytes, streamId: Bytes, records: seq<RecordInput>): Option<StreamError> {
    if !NoDup(Map(RecordSeq(), records)) then Some(DuplicateSeq)
    else if records == [] then None
    else if |key| != 32 then Some(StreamKeyLength)
    else if |streamId| != 32 then Some(StreamError.StreamIdLength)
    else if !AllInRange(records) then Some(StreamError.SeqOutOfRange)
    else None
  }

  ghost predicate AllInRange(records: seq<RecordInput>) {
    forall r :: r in records ==> 0 <= r.seqNo < U64_LIMIT
  }

  ghost function Computed(c: Crypto, key: Bytes, streamId: Bytes, records: seq<RecordInput>)
    : Result<seq<ComputedAnchor>, StreamError>
  {
    match Refusal(key, streamId, records)
    case Some(e) => Err(e)
    case None => Ok(Chain(c, key, streamId, SortRecords(records)))
  }

  lemma SortedRecords(records: seq<RecordInput>)
    ensures multiset(SortRecords(records)) == multiset(records)
    ensures SortedBy(ByIntKey(RecordSeq()), SortRecords(records))
    ensures |SortRecords(records)| == |records|
    ensures forall r :: r in SortRecords(records) <==> r in records
    ensures NoDup(Map(RecordSeq(), records)) <==> Increasing(RecordSeq(), SortRecords(records))
  {
    SortIncreases(RecordSeq(), records);
  }

  // ----- the computation ----------------------------------------------------------

  method ComputeAnchors(c: Crypto, key: Bytes, streamId: Bytes, records: seq<RecordInput>)
    returns (r: Result<seq<ComputedAnchor>, StreamError>)
    ensures r == Computed(c, key, streamId, records)
  {
    hide Chain, SortedBy, Increasing, NoDup;
    var sorted := SortRecords(records);
    SortedRecords(records);
    var repeated := HasRepeat(sorted);
    if repeated { return Err(DuplicateSeq); }
    r := ComputeSorted(c, key, streamId, sorted);
    assert records == [] <==> sorted == [];
  }

  method HasRepeat(sorted: seq<RecordInput>) returns (repeated: bool)
    requires SortedBy(ByIntKey(RecordSeq()), sorted)
    ensures repeated <==> !Increasing(RecordSeq(), sorted)
  {
    var i := 1;
    while i < |sorted|
      invariant 1 <= i
      invariant forall k :: 0 < k < i && k < |sorted| ==> sorted[k - 1].seqNo < sorted[k].seqNo
    {
      if sorted[i].seqNo == sorted[i - 1].seqNo {
        assert RecordSeq()(sorted[i - 1]) == RecordSeq()(sorted[i]);
        return true;
      }
      assert ByIntKey(RecordSeq())(sorted[i - 1], sorted[i]);
      i := i + 1;
    }
    StepsIncrease(sorted);
    return false;
  }

  method ComputeSorted(c: Crypto, key: Bytes, streamId: Bytes, sorted: seq<RecordInput>)
    returns (r: Result<seq<ComputedAnchor>, StreamError>)
    requires Increasing(RecordSeq(), sorted)
    ensures r.Ok? ==> r.value == Chain(c, key, streamId, sorted)
    ensures r.Ok? && sorted != [] ==> |key| == 32 && |streamId| == 32 && AllInRange(sorted)
    ensures r.Err? ==> sorted != [] && match r.error {
      case StreamKeyLength => |key| != 32
      case StreamIdLength => |key| == 32 && |streamId| != 32
      case SeqOutOfRange => |key| == 32 && |streamId| == 32 && !AllInRange(sorted)
      case DuplicateSeq => false
    }
  {
    var digestBySeq: map<int, Bytes> := map[];
    var out: seq<ComputedAnchor> := [];
    for n := 0 to |sorted|
      invariant out == Chain(c, key, streamId, sorted[..n])
      invariant Remembers(sorted, n, out, digestBySeq)
      invariant n > 0 ==> |key| == 32 && |streamId| == 32
      invariant forall k :: 0 <= k < n ==> 0 <= sorted[k].seqNo < U64_LIMIT
    {
      var record := sorted[n];
      var encrypted := EncryptRecord(c, key, streamId, record.seqNo, record.plaintext);
      assert record in sorted;
      if encrypted.Err? { return Err(encrypted.error); }
      var anchor := AnchorFor(c, key, streamId, sorted, n, out, record, encrypted.value, digestBySeq);
      assert sorted[..n + 1][..n] == sorted[..n];
      RemembersNext(sorted, n, out, digestBySeq, anchor);
      if anchor.envelopeDigest.Some? {
        digestBySeq := digestBySeq[record.seqNo := anchor.envelopeDigest.value];
      }
      out := out + [anchor];
    }
    assert sorted[..|sorted|] == sorted;
    return Ok(out);
  }

  /** One iteration: the backward link, then the envelope and its digest if the link is known. */
  method AnchorFor(c: Crypto, key: Bytes, streamId: Bytes, ghost sorted: seq<RecordInput>, ghost n: nat,
                   ghost below: seq<ComputedAnchor>, record: RecordInput, ciphertext: Bytes, digestBySeq: map<int, Bytes>)
    returns (anchor: ComputedAnchor)
    requires n < |sorted| && Increasing(RecordSeq(), sorted) && Remembers(sorted, n, below, digestBySeq)
    requires below == Chain(c, key, streamId, sorted[..n])
    requires record == sorted[n] && ciphertext == c.encrypt(key, streamId, record.seqNo, record.plaintext)
    requires |streamId| == 32 && 0 <= record.seqNo < U64_LIMIT
    ensures anchor == Next(c, key, streamId, below, record)
  {
    hide Chain, Remembers, Increasing;
    var ciphertextDigest := c.keccak(ciphertext);
    var prev: Option<Bytes>;
    if record.seqNo == 0 {
      prev := Some(ZERO32);
    } else {
      prev := if record.seqNo - 1 in digestBySeq then Some(digestBySeq[record.seqNo - 1]) else None;
      LookupBelow(sorted, n, below, digestBySeq);
    }
    LinkWidth(c, key, streamId, sorted[..n], record.seqNo);
    var envelope: Option<Bytes> := None;
    var digest: Option<Bytes> := None;
    if prev.Some? {
      var encoded := EncodeEnvelope(
        EnvelopeFields(ENVELOPE_VERSION, streamId, record.seqNo, ciphertextDigest, prev.value));
      envelope := Some(encoded.value);
      digest := Some(c.keccak(encoded.value));
    }
    anchor := ComputedAnchor(record.seqNo, record.plaintext, ciphertext, ciphertextDigest, prev, envelope, digest);
  }

  /** The digest map holds exactly the resolved anchors so far. */
  ghost predicate Remembers(sorted: seq<RecordInput>, n: nat, out: seq<ComputedAnchor>, digestBySeq: map<int, Bytes>) {
    && n <= |sorted| && |out| == n
    && (forall k :: 0 <= k < n ==> out[k].seqNo == sorted[k].seqNo)
    && (forall k :: 0 <= k < n && out[k].envelopeDigest.Some? ==>
          out[k].seqNo in digestBySeq && digestBySeq[out[k].seqNo] == out[k].envelopeDigest.value)
    && (forall s :: s in digestBySeq ==> exists k :: 0 <= k < n && out[k].seqNo == s && out[k].envelopeDigest.Some?)
  }

  lemma {:induction false} StepsIncrease(sorted: seq<RecordInput>)
    requires forall k :: 0 < k < |sorted| ==> sorted[k - 1].seqNo < sorted[k].seqNo
    ensures Increasing(RecordSeq(), sorted)
    decreases |sorted|
  {
    if sorted != [] {
      var n := |sorted| - 1;
      StepsIncrease(sorted[..n]);
      forall i | 0 <= i < n ensures RecordSeq()(sorted[i]) < RecordSeq()(sorted[n]) {
        if i < n - 1 { assert RecordSeq()(sorted[..n][i]) < RecordSeq()(sorted[..n][n - 1]); }
      }
      forall i, j | 0 <= i < j < |sorted| ensures RecordSeq()(sorted[i]) < RecordSeq()(sorted[j]) {
        if j < n { assert RecordSeq()(sorted[..n][i]) < RecordSeq()(sorted[..n][j]); }
      }
    }
  }

  lemma RemembersNext(sorted: seq<RecordInput>, n: nat, out: seq<ComputedAnchor>, digestBySeq: map<int, Bytes>, a: ComputedAnchor)
    requires n < |sorted| && Increasing(RecordSeq(), sorted)
    requires Remembers(sorted, n, out, digestBySeq) && a.seqNo == sorted[n].seqNo
    ensures Remembers(sorted, n + 1, out + [a],
              if a.envelopeDigest.Some? then digestBySeq[a.seqNo := a.envelopeDigest.value] else digestBySeq)
  {
    assert forall k :: 0 <= k < n ==> RecordSeq()(sorted[k]) < RecordSeq()(sorted[n]);
    var out' := out + [a];
    forall s | s in digestBySeq ensures exists k :: 0 <= k < n + 1 && out'[k].seqNo == s && out'[k].envelopeDigest.Some? {
      var k :| 0 <= k < n && out[k].seqNo == s && out[k].envelopeDigest.Some?;
      assert out'[k] == out[k];
    }
    assert out'[n] == a;
  }

  /** With increasing positions the map lookup and the last anchor give the same link. */
  lemma LookupBelow(sorted: seq<RecordInput>, n: nat, out: seq<ComputedAnchor>, digestBySeq: map<int, Bytes>)
    requires n < |sorted| && Increasing(RecordSeq(), sorted)
    requires Remembers(sorted, n, out, digestBySeq)
    requires sorted[n].seqNo != 0
    ensures LinkBelow(out, sorted[n].seqNo) ==
              if sorted[n].seqNo - 1 in digestBySeq then Some(digestBySeq[sorted[n].seqNo - 1]) else None
  {
    var s := sorted[n].seqNo - 1;
    if s in digestBySeq {
      var k :| 0 <= k < n && out[k].seqNo == s && out[k].envelopeDigest.Some?;
      NothingBetween(sorted, k, n);
    }
  }

  lemma NothingBetween(sorted: seq<RecordInput>, k: nat, n: nat)
    requires k < n < |sorted| && Increasing(RecordSeq(), sorted)
    ensures k < n - 1 ==> sorted[k].seqNo < sorted[n].seqNo - 1
  {
    if k < n - 1 { assert RecordSeq()(sorted[k]) < RecordSeq()(sorted[n - 1]) < RecordSeq()(sorted[n]); }
  }

  lemma LinkWidth(c: Crypto, key: Bytes, streamId: Bytes, records: seq<RecordInput>, seqNo: int)
    ensures var l := LinkBelow(Chain(c, key, streamId, records), seqNo); l.Some? ==> |l.value| == 32
  {}

  // ----- what every output looks like ----------------------------------------------

  /** Anchor `a` among the anchors `m` by position: its link and its digest. */
  ghost predicate Linked(keccak: Hash, streamId: Bytes, m: map<int, ComputedAnchor>, a: ComputedAnchor) {
    && 0 <= a.seqNo < U64_LIMIT
    && |a.ciphertextDigest| == 32
    && a.prevEnvelopeDigest == (if a.seqNo == 0 then Some(ZERO32)
                                else if a.seqNo - 1 in m then m[a.seqNo - 1].envelopeDigest else None)
    && a.envelopeDigest == (match a.prevEnvelopeDigest
                            case None => None
                            case Some(p) => Some(RowDigest(keccak, streamId, a.seqNo, a.ciphertextDigest, p)))
  }

  /** Sorted, one anchor a position, every link resolved exactly when the anchor below is there and resolved. */
  ghost predicate WellChained(keccak: Hash, streamId: Bytes, xs: seq<ComputedAnchor>) {
    && (xs == [] || |streamId| == 32)
    && Increasing(AnchorSeq(), xs)
    && forall a :: a in xs ==> Linked(keccak, streamId, ByKey(AnchorSeq(), xs), a)
  }

  lemma {:induction false} ChainPositions(c: Crypto, key: Bytes, streamId: Bytes, records: seq<RecordInput>, i: nat)
    requires i < |records|
    ensures var a := Chain(c, key, streamId, records)[i];
            a == Next(c, key, streamId, Chain(c, key, streamId, records[..i]), records[i])
    ensures Chain(c, key, streamId, records)[..i] == Chain(c, key, streamId, records[..i])
  {
    var n := |records| - 1;
    if i < n {
      ChainPositions(c, key, streamId, records[..n], i);
      assert records[..n][..i] == records[..i];
    }
  }

  lemma {:induction false} ChainIsWellChained(c: Crypto, key: Bytes, streamId: Bytes, records: seq<RecordInput>)
    requires Increasing(RecordSeq(), records) && AllInRange(records) && (records == [] || |streamId| == 32)
    ensures WellChained(c.keccak, streamId, Chain(c, key, streamId, records))
  {
    var xs := Chain(c, key, streamId, records);
    ChainIncreases(c, key, streamId, records);
    var m := ByKey(AnchorSeq(), xs);
    ByKeyMember(AnchorSeq(), xs);
    assert forall k :: k in m ==> AnchorSeq()(m[k]) == k;
    assert forall x :: x in xs ==> AnchorSeq()(x) in m;
    forall a | a in xs ensures Linked(c.keccak, streamId, m, a) {
      var i :| 0 <= i < |xs| && xs[i] == a;
      assert records[i] in records;
      ChainPositions(c, key, streamId, records, i);
      ChainLinked(c, key, streamId, xs, records[i], m, i);
    }
  }

  lemma {:induction false} ChainLinked(c: Crypto, key: Bytes, streamId: Bytes, xs: seq<ComputedAnchor>, r: RecordInput,
                                       m: map<int, ComputedAnchor>, i: nat)
    requires i < |xs| && xs[i] == Next(c, key, streamId, xs[..i], r) && 0 <= r.seqNo < U64_LIMIT
    requires Increasing(AnchorSeq(), xs)
    requires forall x :: x in xs ==> x.seqNo in m
    requires forall k :: k in m ==> m[k] in xs && m[k].seqNo == k
    ensures Linked(c.keccak, streamId, m, xs[i])
  {
    LinkInMap(xs, m, i);
    NextIsLinked(c, key, streamId, xs[..i], r, m);
  }

  lemma NextIsLinked(c: Crypto, key: Bytes, streamId: Bytes, below: seq<ComputedAnchor>, r: RecordInput, m: map<int, ComputedAnchor>)
    requires 0 <= r.seqNo < U64_LIMIT
    requires LinkBelow(below, r.seqNo) ==
               if r.seqNo == 0 then Some(ZERO32)
               else if r.seqNo - 1 in m then m[r.seqNo - 1].envelopeDigest else None
    ensures Linked(c.keccak, streamId, m, Next(c, key, streamId, below, r))
  {}

  lemma {:induction false} ChainIncreases(c: Crypto, key: Bytes, streamId: Bytes, records: seq<RecordInput>)
    requires Increasing(RecordSeq(), records)
    ensures Increasing(AnchorSeq(), Chain(c, key, streamId, records))
  {
    var xs := Chain(c, key, streamId, records);
    forall i | 0 <= i < |xs| ensures xs[i].seqNo == records[i].seqNo {
      ChainPositions(c, key, streamId, records, i);
    }
    forall i, j | 0 <= i < j < |xs| ensures AnchorSeq()(xs[i]) < AnchorSeq()(xs[j]) {
      assert RecordSeq()(records[i]) < RecordSeq()(records[j]);
    }
  }

  /** In an increasing list the anchor one position below, if there is one, comes right before. */
  lemma {:induction false} LinkInMap(xs: seq<ComputedAnchor>, m: map<int, ComputedAnchor>, i: nat)
    requires i < |xs| && Increasing(AnchorSeq(), xs)
    requires forall x :: x in xs ==> x.seqNo in m
    requires forall k :: k in m ==> m[k] in xs && m[k].seqNo == k
    ensures LinkBelow(xs[..i], xs[i].seqNo) ==
              if xs[i].seqNo == 0 then Some(ZERO32)
              else if xs[i].seqNo - 1 in m then m[xs[i].seqNo - 1].envelopeDigest else None
  {
    var s := xs[i].seqNo - 1;
    if s in m {
      var k :| 0 <= k < |xs| && xs[k] == m[s];
    } else if i > 0 {
      assert xs[i - 1] in xs;
    }
  }

  /** Every successful computation is well chained, over the digests of the re-encrypted records. */
  lemma ComputedIsWellChained(c: Crypto, key: Bytes, streamId: Bytes, records: seq<RecordInput>)
    requires Computed(c, key, streamId, records).Ok?
    ensures WellChained(c.keccak, streamId, Computed(c, key, streamId, records).value)
  {
    SortedRecords(records);
    ChainIsWellChained(c, key, streamId, SortRecords(records));
  }

  // ----- what an output says of its record -------------------------------------------------

  /** Anchor `a` is that of record `r`: its plaintext, its encryption and the digest of that, and, exactly where the link
      is known, the version-1 envelope of these fields and its digest. */
  ghost predicate AnchorOfRecord(c: Crypto, key: Bytes, streamId: Bytes, r: RecordInput, a: ComputedAnchor) {
    && a.seqNo == r.seqNo && a.plaintext == r.plaintext
    && a.ciphertext == c.encrypt(key, streamId, r.seqNo, r.plaintext)
    && a.ciphertextDigest == c.keccak(a.ciphertext)
    && (a.envelope.Some? <==> a.prevEnvelopeDigest.Some?)
    && (a.envelopeDigest.Some? <==> a.envelope.Some?)
    && (a.envelope.Some? ==>
          && DecodeEnvelope(a.envelope.value) ==
               Ok(EnvelopeFields(1, streamId, r.seqNo, a.ciphertextDigest, a.prevEnvelopeDigest.value))
          && a.envelopeDigest == Some(c.keccak(a.envelope.value)))
  }

  lemma {:induction false} NextIsOfRecord(c: Crypto, key: Bytes, streamId: Bytes, below: seq<RecordInput>, r: RecordInput)
    requires |streamId| == 32 && 0 <= r.seqNo < U64_LIMIT
    ensures AnchorOfRecord(c, key, streamId, r, Next(c, key, streamId, Chain(c, key, streamId, below), r))
  {
    hide Chain, DecodeEnvelope, LinkBelow;
    var xs := Chain(c, key, streamId, below);
    LinkWidth(c, key, streamId, below, r.seqNo);
    var a := Next(c, key, streamId, xs, r);
    if a.prevEnvelopeDigest.Some? {
      DecodeEncode(EnvelopeFields(ENVELOPE_VERSION, streamId, r.seqNo, a.ciphertextDigest, a.prevEnvelopeDigest.value));
    }
  }

  lemma {:induction false} ChainOfRecords(c: Crypto, key: Bytes, streamId: Bytes, sorted: seq<RecordInput>, i: nat)
    requires i < |sorted| && |streamId| == 32 && 0 <= sorted[i].seqNo < U64_LIMIT
    ensures AnchorOfRecord(c, key, streamId, sorted[i], Chain(c, key, streamId, sorted)[i])
  {
    hide Next, AnchorOfRecord, DecodeEnvelope;
    ChainPositions(c, key, streamId, sorted, i);
    NextIsOfRecord(c, key, streamId, sorted[..i], sorted[i]);
  }

  lemma {:induction false} ComputedAnswers(c: Crypto, key: Bytes, streamId: Bytes, records: seq<RecordInput>)
    requires Computed(c, key, streamId, records).Ok?
    ensures Computed(c, key, streamId, records).value == Chain(c, key, streamId, SortRecords(records))
    ensures NoDup(Map(RecordSeq(), records)) && AllInRange(records) && (records == [] || |streamId| == 32)
  {
    hide Chain, SortRecords, NoDup;
  }

  /** Every successful computation gives exactly the anchors of its records, in order of position. */
  lemma {:induction false} ComputedContents(c: Crypto, key: Bytes, streamId: Bytes, records: seq<RecordInput>)
    returns (sorted: seq<RecordInput>)
    requires Computed(c, key, streamId, records).Ok?
    ensures multiset(sorted) == multiset(records) && Increasing(RecordSeq(), sorted)
    ensures var xs := Computed(c, key, streamId, records).value;
            |xs| == |sorted| && forall i :: 0 <= i < |xs| ==> AnchorOfRecord(c, key, streamId, sorted[i], xs[i])
  {
    hide Chain, Computed, AnchorOfRecord, Increasing, NoDup, SortedBy, SortRecords;
    sorted := SortRecords(records);
    SortedRecords(records);
    ComputedAnswers(c, key, streamId, records);
    forall i | 0 <= i < |sorted| ensures AnchorOfRecord(c, key, streamId, sorted[i], Chain(c, key, streamId, sorted)[i]) {
      assert sorted[i] in sorted;
      ChainOfRecords(c, key, streamId, sorted, i);
    }
  }
}
