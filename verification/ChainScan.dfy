/** Rebuilding one stream's anchor set from raw calls: completeness-checker/sources/chain.ts. */
module ChainScan {
  import opened Basics
  import opened ByteCodec
  import opened Envelope
  import opened ServedIndexes
  import opened AnchorIndexes

  /** The scanner's accumulators; `order` is the insertion order of the anchor map's keys. */
  datatype Scan = Scan(
    order: seq<int>, anchors: map<int, ServedAnchor>, conflicts: seq<ServedConflict>, malformed: seq<ServedMalformed>)

  const NOTHING: Scan := Scan([], map[], [], [])

  function ReasonText(reason: MalformedReason): string {
    match reason
    case WRONG_LENGTH => "WRONG_LENGTH"
    case UNSUPPORTED_VERSION => "UNSUPPORTED_VERSION"
  }

  /** One decoded payload, classified. */
  function Classify(keccak: Hash, streamId: Bytes, s: Scan, call: Call): Scan {
    match DecodeEnvelope(call.payload)
    case Err(reason) =>
      s.(malformed := s.malformed +
        [ServedMalformed(ReasonText(reason), Some(|call.payload|), Some(call.txHash), Some(call.blockNumber))])
    case Ok(f) =>
      if f.streamId != streamId then s
      else
        var digest := keccak(call.payload);
        if f.seqNo !in s.anchors then
          s.(order := s.order + [f.seqNo],
             anchors := s.anchors[f.seqNo := ServedAnchor(f.seqNo, f.ciphertextDigest, f.prevEnvelopeDigest, digest, 0,
                                                          Some(call.from), Some(call.txHash), Some(call.blockNumber))])
        else if s.anchors[f.seqNo].envelopeDigest == digest then
          var existing := s.anchors[f.seqNo];
          s.(anchors := s.anchors[f.seqNo := existing.(duplicateCount := existing.duplicateCount + 1)])
        else
          s.(conflicts := s.conflicts +
            [ServedConflict(f.seqNo, digest, Some(call.txHash), Some(call.blockNumber))])
  }

  function ScanTo(keccak: Hash, streamId: Bytes, calls: seq<Call>, n: nat): Scan
    requires n <= |calls|
  {
    if n == 0 then NOTHING else Classify(keccak, streamId, ScanTo(keccak, streamId, calls, n - 1), calls[n - 1])
  }

  const NO_ANCHOR: ServedAnchor := ServedAnchor(-1, [], [], [], 0, None, None, None)

  function Lookup(anchors: map<int, ServedAnchor>): int -> ServedAnchor {
    (s: int) => if s in anchors then anchors[s] else NO_ANCHOR
  }

  function Scanned(streamId: Bytes, s: Scan): ServedIndex {
    ServedIndex(streamId, Sort(ByIntKey(ServedSeq()), Map(Lookup(s.anchors), s.order)), s.conflicts, s.malformed)
  }

  /** `scanChain` from the decoded payloads of the contract's transactions on. */
  method ScanChain(keccak: Hash, streamId: Bytes, calls: seq<Call>) returns (index: ServedIndex)
    ensures index == Scanned(streamId, ScanTo(keccak, streamId, calls, |calls|))
  {
    var order: seq<int> := [];
    var anchors: map<int, ServedAnchor> := map[];
    var conflicts: seq<ServedConflict> := [];
    var malformed: seq<ServedMalformed> := [];
    for i := 0 to |calls|
      invariant Scan(order, anchors, conflicts, malformed) == ScanTo(keccak, streamId, calls, i)
    {
      var call := calls[i];
      var decoded := DecodeEnvelope(call.payload);
      if decoded.Err? {
        malformed := malformed +
          [ServedMalformed(ReasonText(decoded.error), Some(|call.payload|), Some(call.txHash), Some(call.blockNumber))];
        continue;
      }
      var fields := decoded.value;
      if fields.streamId != streamId { continue; }
      var digest := keccak(call.payload);
      if fields.seqNo !in anchors {
        order := order + [fields.seqNo];
        anchors := anchors[fields.seqNo :=
          ServedAnchor(fields.seqNo, fields.ciphertextDigest, fields.prevEnvelopeDigest, digest, 0,
                       Some(call.from), Some(call.txHash), Some(call.blockNumber))];
      } else if anchors[fields.seqNo].envelopeDigest == digest {
        var existing := anchors[fields.seqNo];
        anchors := anchors[fields.seqNo := existing.(duplicateCount := existing.duplicateCount + 1)];
      } else {
        conflicts := conflicts + [ServedConflict(fields.seqNo, digest, Some(call.txHash), Some(call.blockNumber))];
      }
    }
    return ServedIndex(streamId, Sort(ByIntKey(ServedSeq()), Map(Lookup(anchors), order)), conflicts, malformed);
  }
}

/** The served-index cross-check of completeness-checker/compare.ts. */
module IndexComparison {
  import opened Basics
  import opened ByteCodec
  import opened ServedIndexes

  datatype Difference =
    | OnlyInLeft(seqNo: int) | OnlyInRight(seqNo: int)
    | CiphertextDigests(seqNo: int) | EnvelopeDigests(seqNo: int) | PrevDigests(seqNo: int)
    | ConflictCounts | MalformedCounts

  function DifferencesAt(left: map<int, ServedAnchor>, right: map<int, ServedAnchor>): int -> seq<Difference> {
    (s: int) =>
      if s !in left then [OnlyInRight(s)]
      else if s !in right then [OnlyInLeft(s)]
      else
        (if left[s].ciphertextDigest != right[s].ciphertextDigest then [CiphertextDigests(s)] else [])
        + (if left[s].envelopeDigest != right[s].envelopeDigest then [EnvelopeDigests(s)] else [])
        + (if left[s].prevEnvelopeDigest != right[s].prevEnvelopeDigest then [PrevDigests(s)] else [])
  }

  function AllSeqs(a: ServedIndex, b: ServedIndex): seq<int> {
    Sort(ByIntKey((s: int) => s), Dedup(Map(ServedSeq(), a.anchors) + Map(ServedSeq(), b.anchors)))
  }

  function Differences(a: ServedIndex, b: ServedIndex): seq<Difference> {
    Collect(DifferencesAt(ByKey(ServedSeq(), a.anchors), ByKey(ServedSeq(), b.anchors)), AllSeqs(a, b))
    + (if |a.conflicts| != |b.conflicts| then [ConflictCounts] else [])
    + (if |a.malformed| != |b.malformed| then [MalformedCounts] else [])
  }

  /** `compareIndexes`. */
  method CompareIndexes(a: ServedIndex, b: ServedIndex) returns (differences: seq<Difference>)
    ensures differences == Differences(a, b)
  {
    differences := [];
    var left, right := ByKey(ServedSeq(), a.anchors), ByKey(ServedSeq(), b.anchors);
    var seqs := AllSeqs(a, b);
    for i := 0 to |seqs|
      invariant differences == CollectTo(DifferencesAt(left, right), seqs, i)
    {
      differences := CompareAt(left, right, seqs[i], differences);
    }
    if |a.conflicts| != |b.conflicts| { differences := differences + [ConflictCounts]; }
    if |a.malformed| != |b.malformed| { differences := differences + [MalformedCounts]; }
  }

  method CompareAt(left: map<int, ServedAnchor>, right: map<int, ServedAnchor>, s: int, differences0: seq<Difference>)
    returns (differences: seq<Difference>)
    ensures differences == differences0 + DifferencesAt(left, right)(s)
  {
    differences := differences0;
    if s !in left { return differences + [OnlyInRight(s)]; }
    if s !in right { return differences + [OnlyInLeft(s)]; }
    if left[s].ciphertextDigest != right[s].ciphertextDigest { differences := differences + [CiphertextDigests(s)]; }
    if left[s].envelopeDigest != right[s].envelopeDigest { differences := differences + [EnvelopeDigests(s)]; }
    if left[s].prevEnvelopeDigest != right[s].prevEnvelopeDigest { differences := differences + [PrevDigests(s)]; }
  }

  /** What the comparison looks at in a position: the three digests of the last row there. */
  ghost predicate SameDigests(left: map<int, ServedAnchor>, right: map<int, ServedAnchor>) {
    && left.Keys == right.Keys
    && forall s :: s in left ==>
         && left[s].ciphertextDigest == right[s].ciphertextDigest && left[s].envelopeDigest == right[s].envelopeDigest
         && left[s].prevEnvelopeDigest == right[s].prevEnvelopeDigest
  }

  lemma {:induction false} AllSeqsMembers(a: ServedIndex, b: ServedIndex, s: int)
    ensures s in AllSeqs(a, b) <==> s in ByKey(ServedSeq(), a.anchors) || s in ByKey(ServedSeq(), b.anchors)
  {
    var l, r := Map(ServedSeq(), a.anchors), Map(ServedSeq(), b.anchors);
    DedupMember(l + r);
    IntKeyOrders((s: int) => s);
    SortSorts(ByIntKey((s: int) => s), Dedup(l + r));
    KeysAreSeqs(a.anchors, s);
    KeysAreSeqs(b.anchors, s);
  }

  lemma {:induction false} KeysAreSeqs(rows: seq<ServedAnchor>, s: int)
    ensures s in ByKey(ServedSeq(), rows) <==> s in Map(ServedSeq(), rows)
  {
    ByKeyMember(ServedSeq(), rows);
    var all := Map(ServedSeq(), rows);
    if s in ByKey(ServedSeq(), rows) {
      var i :| 0 <= i < |rows| && rows[i] == ByKey(ServedSeq(), rows)[s];
      assert all[i] == s;
    }
    if s in all {
      var i :| 0 <= i < |all| && all[i] == s;
      assert rows[i] in rows;
    }
  }

  /** No difference is reported if and only if both sides hold the same positions with the same three digests and
      as many conflicts and malformed posts; nothing else about the two indexes is compared. */
  lemma {:induction false} NoDifferences(a: ServedIndex, b: ServedIndex)
    ensures Differences(a, b) == [] <==>
              && SameDigests(ByKey(ServedSeq(), a.anchors), ByKey(ServedSeq(), b.anchors))
              && |a.conflicts| == |b.conflicts| && |a.malformed| == |b.malformed|
  {
    var left, right := ByKey(ServedSeq(), a.anchors), ByKey(ServedSeq(), b.anchors);
    var step, seqs := DifferencesAt(left, right), AllSeqs(a, b);
    CollectEmpty(step, seqs, |seqs|);
    forall s ensures s in seqs <==> s in left || s in right { AllSeqsMembers(a, b, s); }
    if SameDigests(left, right) {
      forall i | 0 <= i < |seqs| ensures step(seqs[i]) == [] { assert seqs[i] in seqs; }
    }
    if forall i :: 0 <= i < |seqs| ==> step(seqs[i]) == [] {
      forall s | s in left || s in right ensures step(s) == [] { assert s in seqs; }
      NoStepNoDifference(left, right);
    }
  }

  lemma {:induction false} NoStepNoDifference(left: map<int, ServedAnchor>, right: map<int, ServedAnchor>)
    requires forall s :: s in left || s in right ==> DifferencesAt(left, right)(s) == []
    ensures SameDigests(left, right)
  {
    forall s | s in left || s in right
      ensures s in left && s in right
      ensures left[s].ciphertextDigest == right[s].ciphertextDigest && left[s].envelopeDigest == right[s].envelopeDigest
      ensures left[s].prevEnvelopeDigest == right[s].prevEnvelopeDigest
    {
      assert DifferencesAt(left, right)(s) == [];
      if s in left && s in right {
        assert |DifferencesAt(left, right)(s)| ==
               (if left[s].ciphertextDigest != right[s].ciphertextDigest then 1 else 0)
               + (if left[s].envelopeDigest != right[s].envelopeDigest then 1 else 0)
               + (if left[s].prevEnvelopeDigest != right[s].prevEnvelopeDigest then 1 else 0);
      }
    }
  }

  // ----- which difference is listed -----------------------------------------------------------

  /** When `d` is listed. */
  ghost predicate Differs(a: ServedIndex, b: ServedIndex, d: Difference) {
    var left, right := ByKey(ServedSeq(), a.anchors), ByKey(ServedSeq(), b.anchors);
    match d
    case OnlyInLeft(s) => s in left && s !in right
    case OnlyInRight(s) => s in right && s !in left
    case CiphertextDigests(s) => s in left && s in right && left[s].ciphertextDigest != right[s].ciphertextDigest
    case EnvelopeDigests(s) => s in left && s in right && left[s].envelopeDigest != right[s].envelopeDigest
    case PrevDigests(s) => s in left && s in right && left[s].prevEnvelopeDigest != right[s].prevEnvelopeDigest
    case ConflictCounts => |a.conflicts| != |b.conflicts|
    case MalformedCounts => |a.malformed| != |b.malformed|
  }

  /** The position a difference is about; the counts are about none. */
  function PlaceOf(d: Difference): Option<int> {
    match d
    case OnlyInLeft(s) => Some(s)
    case OnlyInRight(s) => Some(s)
    case CiphertextDigests(s) => Some(s)
    case EnvelopeDigests(s) => Some(s)
    case PrevDigests(s) => Some(s)
    case ConflictCounts => None
    case MalformedCounts => None
  }

  /** Position by position upwards, then the conflict count, then the malformed count. */
  predicate NotAfter(d: Difference, e: Difference) {
    match (PlaceOf(d), PlaceOf(e))
    case (Some(s), Some(t)) => s <= t
    case (Some(_), None) => true
    case (None, Some(_)) => false
    case (None, None) => d == e || (d == ConflictCounts && e == MalformedCounts)
  }

  function Upwards(): (Difference, Difference) -> bool { (d: Difference, e: Difference) => NotAfter(d, e) }

  lemma {:induction false} ListedAt(left: map<int, ServedAnchor>, right: map<int, ServedAnchor>, s: int, d: Difference)
    requires d in DifferencesAt(left, right)(s)
    ensures PlaceOf(d) == Some(s)
  {}

  lemma {:induction false} DiffersOnce(left: map<int, ServedAnchor>, right: map<int, ServedAnchor>, seqs: seq<int>)
    requires Ascending(seqs)
    ensures Disjointly(DifferencesAt(left, right), seqs)
  {
    var step := DifferencesAt(left, right);
    forall i, j, d | 0 <= i < j < |seqs| && d in step(seqs[i]) ensures d !in step(seqs[j]) {
      if d in step(seqs[j]) {
        ListedAt(left, right, seqs[i], d);
        ListedAt(left, right, seqs[j], d);
      }
    }
  }

  lemma {:induction false} ListedUpwards(left: map<int, ServedAnchor>, right: map<int, ServedAnchor>, seqs: seq<int>, n: nat)
    requires n <= |seqs| && Ascending(seqs)
    ensures SortedBy(Upwards(), CollectTo(DifferencesAt(left, right), seqs, n))
  {
    if n > 0 {
      var step := DifferencesAt(left, right);
      var below, more := CollectTo(step, seqs, n - 1), step(seqs[n - 1]);
      ListedUpwards(left, right, seqs, n - 1);
      forall d | d in more ensures PlaceOf(d) == Some(seqs[n - 1]) { ListedAt(left, right, seqs[n - 1], d); }
      forall d | d in below ensures PlaceOf(d).Some? && PlaceOf(d).value <= seqs[n - 1] {
        CollectToMember(step, seqs, n - 1, d);
        var i :| 0 <= i < n - 1 && d in step(seqs[i]);
        ListedAt(left, right, seqs[i], d);
      }
      SamePlace(more, seqs[n - 1]);
      SortedJoin(Upwards(), below, more);
    }
  }

  lemma SamePlace(ds: seq<Difference>, s: int)
    requires forall d :: d in ds ==> PlaceOf(d) == Some(s)
    ensures SortedBy(Upwards(), ds)
  {
    forall i, j | 0 <= i < j < |ds| ensures Upwards()(ds[i], ds[j]) { assert ds[i] in ds && ds[j] in ds; }
  }

  lemma {:induction false} AllSeqsAscend(a: ServedIndex, b: ServedIndex)
    ensures Ascending(AllSeqs(a, b))
  {
    var all := Map(ServedSeq(), a.anchors) + Map(ServedSeq(), b.anchors);
    var le, seqs := ByIntKey((s: int) => s), AllSeqs(a, b);
    DedupMember(all);
    IntKeyOrders((s: int) => s);
    SortSorts(le, Dedup(all));
    assert Elements(seqs) == Elements(Dedup(all));
    DistinctCount(seqs);
    DistinctCount(Dedup(all));
    forall i, j | 0 <= i < j < |seqs| ensures seqs[i] < seqs[j] { assert le(seqs[i], seqs[j]) && seqs[i] != seqs[j]; }
  }

  lemma {:induction false} ListedWhere(a: ServedIndex, b: ServedIndex, d: Difference)
    ensures d in Collect(DifferencesAt(ByKey(ServedSeq(), a.anchors), ByKey(ServedSeq(), b.anchors)), AllSeqs(a, b)) <==>
              PlaceOf(d).Some? && Differs(a, b, d)
  {
    hide AllSeqs, ByKey, DifferencesAt, Differs, PlaceOf;
    var left, right := ByKey(ServedSeq(), a.anchors), ByKey(ServedSeq(), b.anchors);
    var step, seqs := DifferencesAt(left, right), AllSeqs(a, b);
    CollectMember(step, seqs, d);
    if d in Collect(step, seqs) {
      var i :| 0 <= i < |seqs| && d in step(seqs[i]);
      ListedAt(left, right, seqs[i], d);
      assert seqs[i] in seqs;
      AllSeqsMembers(a, b, seqs[i]);
      DiffersAt(a, b, seqs[i], d);
    }
    if PlaceOf(d).Some? && Differs(a, b, d) {
      var s: int := PlaceOf(d).value;
      DiffersAt(a, b, s, d);
      AllSeqsMembers(a, b, s);
      var i :| 0 <= i < |seqs| && seqs[i] == s;
      assert d in step(seqs[i]);
    }
  }

  /** At a position that either side holds. */
  lemma {:induction false} DiffersAt(a: ServedIndex, b: ServedIndex, s: int, d: Difference)
    requires PlaceOf(d) == Some(s)
    ensures var left, right := ByKey(ServedSeq(), a.anchors), ByKey(ServedSeq(), b.anchors);
            && (Differs(a, b, d) ==> s in left || s in right)
            && (s in left || s in right ==> (Differs(a, b, d) <==> d in DifferencesAt(left, right)(s)))
  {
    hide ByKey;
  }

  /** Which differences are listed: each exactly where its condition holds, once, position by position upwards, and the two
      counts behind all of them. */
  lemma {:induction false} DifferenceMeaning(a: ServedIndex, b: ServedIndex)
    ensures NoDup(Differences(a, b)) && SortedBy(Upwards(), Differences(a, b))
    ensures forall d :: d in Differences(a, b) <==> Differs(a, b, d)
  {
    hide AllSeqs, ByKey, DifferencesAt, SortedBy, Differs;
    var left, right := ByKey(ServedSeq(), a.anchors), ByKey(ServedSeq(), b.anchors);
    var seqs := AllSeqs(a, b);
    var places := Collect(DifferencesAt(left, right), seqs);
    AllSeqsAscend(a, b);
    DiffersOnce(left, right, seqs);
    CollectDistinct(DifferencesAt(left, right), seqs, |seqs|);
    ListedUpwards(left, right, seqs, |seqs|);
    forall d ensures d in places <==> PlaceOf(d).Some? && Differs(a, b, d) { ListedWhere(a, b, d); }
    CountsClose(a, b, places);
  }

  /** The counts come behind the positions. */
  lemma CountsClose(a: ServedIndex, b: ServedIndex, places: seq<Difference>)
    requires NoDup(places) && SortedBy(Upwards(), places)
    requires forall d :: d in places <==> PlaceOf(d).Some? && Differs(a, b, d)
    ensures var all := places + (if |a.conflicts| != |b.conflicts| then [ConflictCounts] else [])
                       + (if |a.malformed| != |b.malformed| then [MalformedCounts] else []);
            NoDup(all) && SortedBy(Upwards(), all) && forall d :: d in all <==> Differs(a, b, d)
  {
    hide ByKey, SortedBy;
    var c := if |a.conflicts| != |b.conflicts| then [ConflictCounts] else [];
    var m := if |a.malformed| != |b.malformed| then [MalformedCounts] else [];
    NoDupJoin(places, c);
    NoDupJoin(places + c, m);
    AtMostOne(c);
    AtMostOne(m);
    SortedJoin(Upwards(), places, c);
    SortedJoin(Upwards(), places + c, m);
  }

  lemma AtMostOne(ds: seq<Difference>)
    requires |ds| <= 1
    ensures SortedBy(Upwards(), ds)
  {}

  // ----- agreement and equality ---------------------------------------------------------------

  /** The fields of an anchor that both sources serve, whichever they are. */
  datatype AnchorFields = AnchorFields(seqNo: int, ciphertextDigest: Bytes, prevEnvelopeDigest: Bytes, envelopeDigest: Bytes,
                                       duplicateCount: int)

  function Fields(): ServedAnchor -> AnchorFields {
    (a: ServedAnchor) =>
      AnchorFields(a.seqNo, a.ciphertextDigest, a.prevEnvelopeDigest, a.envelopeDigest, a.duplicateCount)
  }

  ghost predicate SameAnchors(a: ServedIndex, b: ServedIndex) {
    multiset(Map(Fields(), a.anchors)) == multiset(Map(Fields(), b.anchors))
  }

  ghost predicate OneRowEach(rows: seq<ServedAnchor>) { NoDup(Map(ServedSeq(), rows)) }

  lemma {:induction false} RowOfKey(rows: seq<ServedAnchor>, i: nat)
    requires OneRowEach(rows) && i < |rows|
    ensures rows[i].seqNo in ByKey(ServedSeq(), rows) && ByKey(ServedSeq(), rows)[rows[i].seqNo] == rows[i]
  {
    ByKeyMember(ServedSeq(), rows);
    assert rows[i] in rows && ServedSeq()(rows[i]) == rows[i].seqNo;
    var held := ByKey(ServedSeq(), rows)[rows[i].seqNo];
    var k :| 0 <= k < |rows| && rows[k] == held;
    assert Map(ServedSeq(), rows)[k] == Map(ServedSeq(), rows)[i];
  }

  /** Whatever a row of one side shows, some row of the other does. */
  lemma {:induction false} FieldsServed(xs: seq<ServedAnchor>, ys: seq<ServedAnchor>, f: AnchorFields)
    requires OneRowEach(xs) && OneRowEach(ys) && f in Map(Fields(), xs)
    requires var left, right := ByKey(ServedSeq(), xs), ByKey(ServedSeq(), ys);
             SameDigests(left, right) && forall s :: s in left ==> left[s].duplicateCount == right[s].duplicateCount
    ensures f in Map(Fields(), ys)
  {
    var i :| 0 <= i < |xs| && Map(Fields(), xs)[i] == f;
    RowOfKey(xs, i);
    ByKeyMember(ServedSeq(), ys);
    var row := ByKey(ServedSeq(), ys)[xs[i].seqNo];
    assert ServedSeq()(row) == xs[i].seqNo;
    var k :| 0 <= k < |ys| && ys[k] == row;
    assert Map(Fields(), ys)[k] == f;
  }

  lemma {:induction false} FieldsDistinct(rows: seq<ServedAnchor>)
    requires OneRowEach(rows)
    ensures NoDup(Map(Fields(), rows))
  {
    forall i, j | 0 <= i < j < |rows| ensures Map(Fields(), rows)[i] != Map(Fields(), rows)[j] {
      assert Map(ServedSeq(), rows)[i] != Map(ServedSeq(), rows)[j];
    }
  }

  /** Where no envelope was submitted twice, no difference means the same anchors, field by field and up to order, and
      nothing filed beside them on either side. */
  lemma {:induction false} AgreementIsEquality(a: ServedIndex, b: ServedIndex)
    requires OneRowEach(a.anchors) && OneRowEach(b.anchors) && a.conflicts == [] && a.malformed == []
    requires forall x :: x in a.anchors || x in b.anchors ==> x.duplicateCount == 0
    ensures Differences(a, b) == [] <==> SameAnchors(a, b) && b.conflicts == [] && b.malformed == []
  {
    var left, right := ByKey(ServedSeq(), a.anchors), ByKey(ServedSeq(), b.anchors);
    NoDifferences(a, b);
    if SameDigests(left, right) {
      ByKeyMember(ServedSeq(), a.anchors);
      ByKeyMember(ServedSeq(), b.anchors);
      SameFields(a, b);
    }
    if SameAnchors(a, b) { SameFieldsSameDigests(a, b); }
  }

  lemma {:induction false} SameFields(a: ServedIndex, b: ServedIndex)
    requires OneRowEach(a.anchors) && OneRowEach(b.anchors)
    requires var left, right := ByKey(ServedSeq(), a.anchors), ByKey(ServedSeq(), b.anchors);
             SameDigests(left, right) && forall s :: s in left ==> left[s].duplicateCount == right[s].duplicateCount
    ensures SameAnchors(a, b)
  {
    var xs, ys := Map(Fields(), a.anchors), Map(Fields(), b.anchors);
    forall f | f in xs ensures f in ys { FieldsServed(a.anchors, b.anchors, f); }
    forall f | f in ys ensures f in xs { FieldsServed(b.anchors, a.anchors, f); }
    FieldsDistinct(a.anchors);
    FieldsDistinct(b.anchors);
    SameElements(xs, ys);
  }

  lemma {:induction false} SameFieldsSameDigests(a: ServedIndex, b: ServedIndex)
    requires OneRowEach(a.anchors) && OneRowEach(b.anchors) && SameAnchors(a, b)
    ensures SameDigests(ByKey(ServedSeq(), a.anchors), ByKey(ServedSeq(), b.anchors))
  {
    var left, right := ByKey(ServedSeq(), a.anchors), ByKey(ServedSeq(), b.anchors);
    forall s | s in left ensures s in right && Fields()(left[s]) == Fields()(right[s]) { ShownOnBoth(a, b, s); }
    forall s | s in right ensures s in left { ShownOnBoth(b, a, s); }
  }

  lemma {:induction false} ShownOnBoth(a: ServedIndex, b: ServedIndex, s: int)
    requires OneRowEach(b.anchors) && SameAnchors(a, b) && s in ByKey(ServedSeq(), a.anchors)
    ensures s in ByKey(ServedSeq(), b.anchors)
    ensures Fields()(ByKey(ServedSeq(), a.anchors)[s]) == Fields()(ByKey(ServedSeq(), b.anchors)[s])
  {
    ByKeyMember(ServedSeq(), a.anchors);
    var row := ByKey(ServedSeq(), a.anchors)[s];
    var i :| 0 <= i < |a.anchors| && a.anchors[i] == row;
    assert Map(Fields(), a.anchors)[i] in multiset(Map(Fields(), b.anchors));
    var k :| 0 <= k < |b.anchors| && Map(Fields(), b.anchors)[k] == Fields()(row);
    assert ServedSeq()(row) == s;
    RowOfKey(b.anchors, k);
  }

  /** In general it does not: over the same anchor at position 0 of a stream, with different competing envelopes and
      different numbers of repetitions, two indexes compare without a difference. */
  lemma {:induction false} ConflictsAreOnlyCounted(streamId: Digest, row: ServedAnchor, x: Digest, y: Digest)
    requires row.seqNo == 0 && x != y && x != row.envelopeDigest && y != row.envelopeDigest
    ensures var a := ServedIndex(streamId, [row], [ServedConflict(0, x, None, None)], []);
            var again := row.(duplicateCount := row.duplicateCount + 1);
            var b := ServedIndex(streamId, [again], [ServedConflict(0, y, None, None)], []);
            Differences(a, b) == [] && a.conflicts != b.conflicts && !SameAnchors(a, b)
  {
    var again := row.(duplicateCount := row.duplicateCount + 1);
    var a := ServedIndex(streamId, [row], [ServedConflict(0, x, None, None)], []);
    var b := ServedIndex(streamId, [again], [ServedConflict(0, y, None, None)], []);
    assert a.conflicts[0].envelopeDigest != b.conflicts[0].envelopeDigest;
    OneRow(row);
    OneRow(again);
    NoDifferences(a, b);
    assert Map(Fields(), a.anchors)[0] in multiset(Map(Fields(), a.anchors));
    assert Map(Fields(), b.anchors) == [Fields()(again)];
  }

  lemma OneRow(row: ServedAnchor)
    ensures ByKey(ServedSeq(), [row]) == map[row.seqNo := row]
  {
    assert ByKeyTo(ServedSeq(), [row], 0) == map[];
    assert ByKeyTo(ServedSeq(), [row], 1) == ByKeyTo(ServedSeq(), [row], 0)[ServedSeq()(row) := row];
  }
}
