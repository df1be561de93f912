/** When the verdict is a pass, and what each tamper is reported as. */
module VerdictTheorems {
  import opened Basics
  import opened ByteCodec
  import opened Envelope
  import opened AnchorStream
  import opened ServedIndexes
  import opened Verdicts
  import opened VerdictMeaning

  /** The four fields both sides have. */
  datatype Row = Row(seqNo: int, ciphertextDigest: Bytes, prev: Option<Bytes>, envelopeDigest: Option<Bytes>)

  function ServedRow(): ServedAnchor -> Row {
    (a: ServedAnchor) => Row(a.seqNo, a.ciphertextDigest, Some(a.prevEnvelopeDigest), Some(a.envelopeDigest))
  }

  function AnchorRow(): ComputedAnchor -> Row {
    (a: ComputedAnchor) => Row(a.seqNo, a.ciphertextDigest, a.prevEnvelopeDigest, a.envelopeDigest)
  }

  function Rows(served: ServedIndex): seq<Row> { Map(ServedRow(), served.anchors) }

  /** The positions are 0, 1, 2, ... */
  ghost predicate FromZero(xs: seq<ComputedAnchor>) {
    forall i :: 0 <= i < |xs| ==> xs[i].seqNo == i
  }

  /** A whole stream: well chained from position 0 without a hole. */
  ghost predicate Complete(keccak: Hash, streamId: Bytes, published: seq<ComputedAnchor>) {
    |streamId| == 32 && WellChained(keccak, streamId, published) && FromZero(published)
  }

  /** The served anchors are exactly `rows`, each once, in some order. */
  ghost predicate Serves(served: ServedIndex, rows: set<Row>) {
    NoDup(Rows(served)) && Elements(Rows(served)) == rows
  }

  ghost predicate OnePerPosition(rows: set<Row>) {
    forall r, q :: r in rows && q in rows && r.seqNo == q.seqNo ==> r == q
  }

  lemma {:induction false} HeldFromRows(served: ServedIndex, rows: set<Row>)
    requires Serves(served, rows) && OnePerPosition(rows)
    ensures var held := ByKey(ServedSeq(), served.anchors);
            && (forall r :: r in rows ==> r.seqNo in held && ServedRow()(held[r.seqNo]) == r)
            && (forall s :: s in held ==> held[s].seqNo == s && ServedRow()(held[s]) in rows)
    ensures |served.anchors| == |rows|
    ensures forall i :: 0 <= i < |served.anchors| ==> ServedRow()(served.anchors[i]) in rows
  {
    HeldRows(served.anchors);
    DistinctCount(Rows(served));
    var held := ByKey(ServedSeq(), served.anchors);
    forall i | 0 <= i < |served.anchors| ensures ServedRow()(served.anchors[i]) in rows {
      assert Rows(served)[i] in Elements(Rows(served));
    }
    forall r | r in rows ensures r.seqNo in held && ServedRow()(held[r.seqNo]) == r {
      assert r in Elements(Rows(served));
      var i :| 0 <= i < |Rows(served)| && Rows(served)[i] == r;
      assert served.anchors[i].seqNo in held;
      var j :| 0 <= j < |served.anchors| && served.anchors[j] == held[r.seqNo];
      assert ServedRow()(served.anchors[j]) in rows;
    }
    forall s | s in held ensures ServedRow()(held[s]) in rows {
      var j :| 0 <= j < |served.anchors| && served.anchors[j] == held[s];
    }
  }

  /** The rows of a stream without those at the positions `dropped`. */
  ghost function KeptRows(published: seq<ComputedAnchor>, dropped: set<int>): set<Row> {
    set i | 0 <= i < |published| && i !in dropped :: AnchorRow()(published[i])
  }

  ghost function PublishedRows(published: seq<ComputedAnchor>): set<Row> {
    KeptRows(published, {})
  }

  /** In a whole stream every anchor is resolved and points at the one before it. */
  lemma {:induction false} CompleteLinks(keccak: Hash, streamId: Bytes, published: seq<ComputedAnchor>, i: nat)
    requires Complete(keccak, streamId, published) && i < |published|
    ensures published[i].prevEnvelopeDigest == if i == 0 then Some(ZERO32) else published[i - 1].envelopeDigest
    ensures published[i].prevEnvelopeDigest.Some? && |published[i].prevEnvelopeDigest.value| == 32
    ensures published[i].envelopeDigest ==
              Some(RowDigest(keccak, streamId, i, published[i].ciphertextDigest, published[i].prevEnvelopeDigest.value))
    ensures |published[i].ciphertextDigest| == 32 && i < U64_LIMIT
  {
    DisclosedAt(keccak, streamId, published, i);
    if i > 0 {
      DisclosedAt(keccak, streamId, published, i - 1);
      CompleteLinks(keccak, streamId, published, i - 1);
    }
  }

  lemma {:induction false} KeptRowsDistinct(keccak: Hash, streamId: Bytes, published: seq<ComputedAnchor>, dropped: set<int>)
    requires Complete(keccak, streamId, published)
    ensures OnePerPosition(KeptRows(published, dropped))
    ensures forall i :: 0 <= i < |published| && i !in dropped ==> AnchorRow()(published[i]) in KeptRows(published, dropped)
    ensures |KeptRows(published, dropped)| <= |published|
    ensures |KeptRows(published, dropped)| == |published| <==> forall i :: 0 <= i < |published| ==> i !in dropped
  {
    hide WellChained;
    var list, kept := Map(AnchorRow(), published), KeptRows(published, dropped);
    assert forall i, j :: 0 <= i < j < |list| ==> list[i].seqNo == i && list[j].seqNo == j;
    DistinctCount(list);
    assert kept <= Elements(list);
    if i :| 0 <= i < |published| && i in dropped {
      assert forall r :: r in kept ==> r.seqNo !in dropped;
      assert list[i].seqNo == i;
      StrictSubsetSize(kept, Elements(list), list[i]);
    } else {
      forall r | r in Elements(list) ensures r in kept { var i :| 0 <= i < |list| && list[i] == r; }
      assert kept == Elements(list);
    }
  }

  /** A row that hashes to its own envelope digest. */
  ghost predicate SelfConsistent(keccak: Hash, streamId: Bytes, row: Row) {
    && row.prev.Some? && |row.prev.value| == 32 && |row.ciphertextDigest| == 32 && 0 <= row.seqNo < U64_LIMIT
    && row.envelopeDigest == Some(RowDigest(keccak, streamId, row.seqNo, row.ciphertextDigest, row.prev.value))
  }

  lemma {:induction false} NoRowError(streamId: Bytes, rows: seq<ServedAnchor>, n: nat)
    requires n <= |rows|
    requires forall i :: 0 <= i < n ==> Encodable(RowFields(streamId, rows[i]))
    ensures RowError(streamId, rows, n).None?
  {
    if n > 0 { NoRowError(streamId, rows, n - 1); }
  }

  lemma {:induction false} ConsistentRows(keccak: Hash, served: ServedIndex, rows: set<Row>)
    requires |served.streamId| == 32
    requires forall i :: 0 <= i < |served.anchors| ==> ServedRow()(served.anchors[i]) in rows
    requires forall r :: r in rows ==> SelfConsistent(keccak, served.streamId, r)
    ensures RowError(served.streamId, served.anchors, |served.anchors|).None?
    ensures InconsistentSeqs(keccak, served.streamId, served.anchors, |served.anchors|) == {}
  {
    forall i | 0 <= i < |served.anchors|
      ensures Encodable(RowFields(served.streamId, served.anchors[i]))
      ensures !RowInconsistent(keccak, served.streamId, served.anchors[i])
    {
      assert SelfConsistent(keccak, served.streamId, ServedRow()(served.anchors[i]));
    }
    NoRowError(served.streamId, served.anchors, |served.anchors|);
  }

  lemma {:induction false} KeptRowsConsistent(keccak: Hash, streamId: Bytes, published: seq<ComputedAnchor>, dropped: set<int>)
    requires Complete(keccak, streamId, published)
    ensures forall r :: r in KeptRows(published, dropped) ==> SelfConsistent(keccak, streamId, r)
  {
    forall r | r in KeptRows(published, dropped) ensures SelfConsistent(keccak, streamId, r) {
      var i :| 0 <= i < |published| && AnchorRow()(published[i]) == r;
      CompleteLinks(keccak, streamId, published, i);
    }
  }

  /** What an index of a whole stream without the rows `dropped` looks like to the checker. */
  lemma {:induction false} KeptHeld(keccak: Hash, served: ServedIndex, published: seq<ComputedAnchor>, dropped: set<int>)
    requires Complete(keccak, served.streamId, published) && Serves(served, KeptRows(published, dropped))
    ensures var held := ByKey(ServedSeq(), served.anchors);
            && (forall s :: s in held <==> 0 <= s < |published| && s !in dropped)
            && (forall s :: 0 <= s < |published| && s !in dropped ==> ServedRow()(held[s]) == AnchorRow()(published[s]))
            && (forall s :: s in held && Resolvable(held, s) ==> !LinkDiffers(held, s))
    ensures RowError(served.streamId, served.anchors, |served.anchors|).None?
    ensures InconsistentSeqs(keccak, served.streamId, served.anchors, |served.anchors|) == {}
    ensures |served.anchors| == |KeptRows(published, dropped)|
  {
    var rows, held := KeptRows(published, dropped), ByKey(ServedSeq(), served.anchors);
    KeptRowsDistinct(keccak, served.streamId, published, dropped);
    KeptRowsConsistent(keccak, served.streamId, published, dropped);
    HeldFromRows(served, rows);
    ConsistentRows(keccak, served, rows);
    forall s | 0 <= s < |published| && s !in dropped ensures s in held && ServedRow()(held[s]) == AnchorRow()(published[s]) {
      assert AnchorRow()(published[s]) in rows;
    }
    forall s | s in held ensures 0 <= s < |published| && s !in dropped {
      var r := ServedRow()(held[s]);
      var i :| 0 <= i < |published| && i !in dropped && AnchorRow()(published[i]) == r;
    }
    forall s | s in held && Resolvable(held, s) ensures !LinkDiffers(held, s) {
      CompleteLinks(keccak, served.streamId, published, s);
      assert ServedRow()(held[s]) == AnchorRow()(published[s]);
      if s > 0 { assert ServedRow()(held[s - 1]) == AnchorRow()(published[s - 1]); }
    }
  }

  lemma {:induction false} HonestHeld(keccak: Hash, served: ServedIndex, published: seq<ComputedAnchor>)
    requires Complete(keccak, served.streamId, published) && Serves(served, PublishedRows(published))
    ensures var held := ByKey(ServedSeq(), served.anchors);
            && (forall s :: s in held <==> 0 <= s < |published|)
            && (forall s :: 0 <= s < |published| ==> ServedRow()(held[s]) == AnchorRow()(published[s]))
            && (forall s :: s in held && Resolvable(held, s) ==> !LinkDiffers(held, s))
    ensures RowError(served.streamId, served.anchors, |served.anchors|).None?
    ensures InconsistentSeqs(keccak, served.streamId, served.anchors, |served.anchors|) == {}
    ensures |served.anchors| == |published|
  {
    KeptHeld(keccak, served, published, {});
    KeptRowsDistinct(keccak, served.streamId, published, {});
  }

  /** Against an honest index of a whole stream, the findings say exactly how the disclosure differs from it. */
  ghost predicate HonestFinding(expected: seq<ComputedAnchor>, served: ServedIndex, published: seq<ComputedAnchor>, f: Finding) {
    var disclosed := ByKey(AnchorSeq(), expected);
    match f
    case Finding(ALTERED, Some(s)) =>
      0 <= s < |published| && s in disclosed && disclosed[s].ciphertextDigest != published[s].ciphertextDigest
    case Finding(MISSING, Some(s)) => 0 <= s < |published| && s !in disclosed
    case Finding(GAP, Some(s)) => s in disclosed && s >= |published|
    case Finding(CONFLICT, Some(s)) => exists i :: 0 <= i < |served.conflicts| && served.conflicts[i].seqNo == s
    case Finding(COUNT_MISMATCH, None) => |expected| != |published|
    case _ => false
  }

  lemma {:induction false} AgainstHonestIndex(keccak: Hash, expected: seq<ComputedAnchor>, served: ServedIndex,
                                              published: seq<ComputedAnchor>)
    requires WellChained(keccak, served.streamId, expected)
    requires Complete(keccak, served.streamId, published) && Serves(served, PublishedRows(published))
    ensures Compare(keccak, expected, served) == Ok(VerdictOf(keccak, expected, served))
    ensures var findings := VerdictOf(keccak, expected, served).findings;
            NoDup(findings) && forall f :: f in findings <==> HonestFinding(expected, served, published, f)
  {
    HonestHeld(keccak, served, published);
    ChainedFindings(keccak, expected, served);
    var findings := VerdictOf(keccak, expected, served).findings;
    forall f ensures f in findings <==> HonestFinding(expected, served, published, f) {
      assert f in findings <==> Found(keccak, expected, served, f);
      HonestFindingIff(keccak, expected, served, published, f);
    }
  }

  lemma {:induction false} HonestFindingIff(keccak: Hash, expected: seq<ComputedAnchor>, served: ServedIndex,
                                            published: seq<ComputedAnchor>, f: Finding)
    requires WellChained(keccak, served.streamId, expected)
    requires Complete(keccak, served.streamId, published) && Serves(served, PublishedRows(published))
    ensures Found(keccak, expected, served, f) <==> HonestFinding(expected, served, published, f)
  {
    match f {
      case Finding(code, Some(s)) => HonestFindingAt(keccak, expected, served, published, code, s);
      case Finding(code, None) => HonestHeld(keccak, served, published);
    }
  }

  lemma {:induction false} HonestFindingAt(keccak: Hash, expected: seq<ComputedAnchor>, served: ServedIndex,
                                           published: seq<ComputedAnchor>, code: FindingCode, s: int)
    requires WellChained(keccak, served.streamId, expected)
    requires Complete(keccak, served.streamId, published) && Serves(served, PublishedRows(published))
    ensures Found(keccak, expected, served, Finding(code, Some(s))) <==>
              HonestFinding(expected, served, published, Finding(code, Some(s)))
  {
    hide WellChained, ByKey, Complete, Serves, PublishedRows;
    var v := SidesOf(keccak, expected, served);
    HonestHeld(keccak, served, published);
    DisclosedAnchors(keccak, served.streamId, expected);
    match code {
      case ALTERED => AlteredExactly(keccak, expected, served, s);
        if 0 <= s < |published| { assert ServedRow()(v.held[s]) == AnchorRow()(published[s]); }
      case GAP =>
        if s in v.disclosed { DisclosedIsHighest(keccak, served.streamId, expected, s); }
      case _ =>
    }
  }

  lemma {:induction false} AlteredExactly(keccak: Hash, expected: seq<ComputedAnchor>, served: ServedIndex, s: int)
    requires WellChained(keccak, served.streamId, expected)
    ensures var v := SidesOf(keccak, expected, served);
            s in v.altered <==>
              s in v.disclosed && s in v.held && v.disclosed[s].ciphertextDigest != v.held[s].ciphertextDigest
  {
    var v := SidesOf(keccak, expected, served);
    DisclosedAnchors(keccak, served.streamId, expected);
    if s in v.disclosed {
      var i :| 0 <= i < |expected| && expected[i] == v.disclosed[s];
      assert Restated(v.held, expected[i]) ==> expected[i].seqNo in v.altered;
    }
    if s in v.altered {
      var i :| 0 <= i < |expected| && Restated(v.held, expected[i]) && expected[i].seqNo == s;
      assert v.disclosed[s] == expected[i];
    }
  }

  // ----- exit codes --------------------------------------------------------------------------

  lemma {:induction false} LowestExitIs(findings: seq<Finding>, n: nat, worst: Finding)
    requires n <= |findings| && exists i :: 0 <= i < n && findings[i] == worst
    requires forall f :: f in findings ==> ExitFor(f.code) >= ExitFor(worst.code)
    ensures LowestExit(findings, n) == ExitFor(worst.code)
  {
    var i :| 0 <= i < n && findings[i] == worst;
    LowestExitBound(findings, n - 1, ExitFor(worst.code));
    if i < n - 1 { LowestExitIs(findings, n - 1, worst); }
    assert findings[n - 1] in findings;
  }

  lemma {:induction false} LowestExitBound(findings: seq<Finding>, n: nat, bound: int)
    requires n <= |findings| && bound <= MAX_SAFE_INTEGER
    requires forall f :: f in findings ==> ExitFor(f.code) >= bound
    ensures LowestExit(findings, n) >= bound
  {
    if n > 0 {
      LowestExitBound(findings, n - 1, bound);
      assert findings[n - 1] in findings;
    }
  }

  ghost predicate Has(findings: seq<Finding>, code: FindingCode) {
    exists f :: f in findings && f.code == code
  }

  /** The exit code for each thing the checker can have found: the gravest finding decides. */
  ghost predicate ExitMeans(exit: int, findings: seq<Finding>) {
    && (exit == 0 <==> findings == [])
    && (exit == 2 <==> Has(findings, ALTERED))
    && (exit == 3 <==> !Has(findings, ALTERED) && Has(findings, MISSING))
    && (exit == 4 <==> !Has(findings, ALTERED) && !Has(findings, MISSING) && Has(findings, GAP))
    && (exit == 5 <==> !Has(findings, ALTERED) && !Has(findings, MISSING) && !Has(findings, GAP)
                       && Has(findings, CHAIN_BREAK))
    && (exit == 6 <==> Has(findings, CONFLICT)
                       && forall f :: f in findings ==> f.code in {CONFLICT, ENVELOPE_MISMATCH, COUNT_MISMATCH})
    && (exit == 7 <==> Has(findings, ENVELOPE_MISMATCH)
                       && forall f :: f in findings ==> f.code in {ENVELOPE_MISMATCH, COUNT_MISMATCH})
    && (exit == 8 <==> findings != [] && forall f :: f in findings ==> f.code == COUNT_MISMATCH)
  }

  lemma LowestFinding(findings: seq<Finding>, n: nat) returns (f: Finding)
    requires 0 < n <= |findings|
    ensures f in findings[..n] && LowestExit(findings, n) == ExitFor(f.code)
    ensures forall g :: g in findings[..n] ==> ExitFor(g.code) >= ExitFor(f.code)
  {
    assert findings[..n] == findings[..n - 1] + [findings[n - 1]];
    f := findings[n - 1];
    if n > 1 {
      var g := LowestFinding(findings, n - 1);
      if ExitFor(g.code) <= ExitFor(f.code) { f := g; }
    }
  }

  /** The exit code of any verdict, from its findings alone. */
  lemma {:induction false} ExitCodes(keccak: Hash, expected: seq<ComputedAnchor>, served: ServedIndex)
    ensures ExitMeans(VerdictOf(keccak, expected, served).exitCode, VerdictOf(keccak, expected, served).findings)
  {
    hide Candidates, Dedup, Notes, SummaryOf, LowestExit;
    var findings := VerdictOf(keccak, expected, served).findings;
    if findings != [] {
      var f := LowestFinding(findings, |findings|);
      assert findings[..|findings|] == findings;
      LowestDecides(findings, f);
    }
  }

  lemma LowestDecides(findings: seq<Finding>, f: Finding)
    requires f in findings && forall g :: g in findings ==> ExitFor(g.code) >= ExitFor(f.code)
    ensures ExitMeans(ExitFor(f.code), findings)
  {
    assert Has(findings, f.code);
  }

  /** The run completes with exactly the findings `all`, each once. It passes if there is none, and otherwise exits with
      the code `exit`. */
  ghost predicate Reports(outcome: Result<Verdict, EncodeError>, all: set<Finding>, exit: int) {
    && outcome.Ok?
    && NoDup(outcome.value.findings) && Elements(outcome.value.findings) == all && |outcome.value.findings| == |all|
    && outcome.value.ok == (all == {})
    && outcome.value.exitCode == if all == {} then 0 else exit
  }

  /** The findings are exactly `all`, each once. */
  ghost predicate ListsOnly(findings: seq<Finding>, all: set<Finding>) {
    NoDup(findings) && forall f :: f in findings <==> f in all
  }

  ghost predicate Exits(verdict: Verdict) {
    && verdict.ok == (verdict.findings == [])
    && verdict.exitCode == if verdict.findings == [] then 0 else LowestExit(verdict.findings, |verdict.findings|)
  }

  lemma VerdictExit(keccak: Hash, expected: seq<ComputedAnchor>, served: ServedIndex)
    ensures Exits(VerdictOf(keccak, expected, served))
  {}

  lemma {:induction false} ReportsExactly(verdict: Verdict, all: set<Finding>, worst: FindingCode)
    requires Exits(verdict) && ListsOnly(verdict.findings, all)
    requires forall f :: f in all ==> ExitFor(f.code) >= ExitFor(worst)
    requires all == {} || exists f :: f in all && f.code == worst
    ensures Reports(Ok(verdict), all, ExitFor(worst))
  {
    assert Elements(verdict.findings) == all;
    DistinctCount(verdict.findings);
    if verdict.findings != [] {
      assert verdict.findings[0] in all;
      var f :| f in all && f.code == worst;
      assert f in verdict.findings;
      LowestExitIs(verdict.findings, |verdict.findings|, f);
    }
  }

  lemma AnyOf<T>(xs: set<T>) returns (x: T)
    requires xs != {}
    ensures x in xs
  {
    x :| x in xs;
  }

  // ----- disclosure tampers --------------------------------------------------------------------

  ghost function At(code: FindingCode, positions: set<int>): set<Finding> {
    set s | s in positions :: Finding(code, Some(s))
  }

  lemma AtMember(code: FindingCode, positions: set<int>, f: Finding)
    ensures f in At(code, positions) <==> f.code == code && f.seqNo.Some? && f.seqNo.value in positions
  {
    if f.code == code && f.seqNo.Some? && f.seqNo.value in positions {
      var s: int := f.seqNo.value;
      assert s in positions && f == Finding(code, Some(s));
    }
  }

  /** The positions of the conflicts served. */
  ghost function ConflictPositions(served: ServedIndex): set<int> {
    set i | 0 <= i < |served.conflicts| :: served.conflicts[i].seqNo
  }

  /** What a checker has to say of the conflicts served, whatever else it finds. */
  ghost function Contests(served: ServedIndex): set<Finding> { At(CONFLICT, ConflictPositions(served)) }

  lemma ContestsMember(served: ServedIndex, f: Finding)
    ensures f in Contests(served) <==>
              f.code == CONFLICT && f.seqNo.Some?
              && exists i :: 0 <= i < |served.conflicts| && served.conflicts[i].seqNo == f.seqNo.value
  {
    AtMember(CONFLICT, ConflictPositions(served), f);
    if f.seqNo.Some? {
      var s: int := f.seqNo.value;
      assert s in ConflictPositions(served) <==> exists i :: 0 <= i < |served.conflicts| && served.conflicts[i].seqNo == s;
    }
  }

  ghost function Restatements(published: seq<ComputedAnchor>, expected: seq<ComputedAnchor>): set<int> {
    set s | 0 <= s < |published| && s < |expected| && published[s].ciphertextDigest != expected[s].ciphertextDigest
  }

  /** Restating any records of a whole stream: one ALTERED for each position whose ciphertext digest changed, beside the
      conflicts served, exit 2 if any changed. */
  lemma {:induction false} RestatedRecordsAreNamed(keccak: Hash, expected: seq<ComputedAnchor>, served: ServedIndex,
                                                   published: seq<ComputedAnchor>)
    requires Complete(keccak, served.streamId, published) && Serves(served, PublishedRows(published))
    requires Complete(keccak, served.streamId, expected) && |expected| == |published|
    ensures Reports(Compare(keccak, expected, served), At(ALTERED, Restatements(published, expected)) + Contests(served),
                    if Restatements(published, expected) == {} then 6 else 2)
  {
    hide HonestFinding, Contests, Restatements, Reports, Exits;
    var altered, verdict := Restatements(published, expected), VerdictOf(keccak, expected, served);
    AgainstHonestIndex(keccak, expected, served, published);
    forall f ensures f in verdict.findings <==> f in At(ALTERED, altered) + Contests(served) {
      RestatedFinding(keccak, expected, served, published, f);
    }
    VerdictExit(keccak, expected, served);
    ReportsBeside(verdict, ALTERED, altered, served);
  }

  /** Findings of one code at some positions, beside the conflicts served. */
  lemma {:induction false} ReportsBeside(verdict: Verdict, code: FindingCode, positions: set<int>, served: ServedIndex)
    requires code in {ALTERED, MISSING, GAP, CHAIN_BREAK}
    requires Exits(verdict) && ListsOnly(verdict.findings, At(code, positions) + Contests(served))
    ensures Reports(Ok(verdict), At(code, positions) + Contests(served), if positions == {} then 6 else ExitFor(code))
  {
    hide Reports, Exits, ListsOnly;
    var all := At(code, positions) + Contests(served);
    OnlyOneCode(code, positions);
    OnlyOneCode(CONFLICT, ConflictPositions(served));
    assert Contests(served) == At(CONFLICT, ConflictPositions(served));
    if positions == {} {
      assert At(code, positions) == {};
      ReportsExactly(verdict, all, CONFLICT);
    } else {
      var s := AnyOf(positions);
      AtMember(code, positions, Finding(code, Some(s)));
      assert Finding(code, Some(s)) in all;
      ReportsExactly(verdict, all, code);
    }
  }

  lemma {:induction false} OnlyOneCode(code: FindingCode, positions: set<int>)
    ensures forall f :: f in At(code, positions) ==> f.code == code
    ensures At(code, positions) == {} || exists f :: f in At(code, positions) && f.code == code
  {
    forall f | f in At(code, positions) ensures f.code == code { AtMember(code, positions, f); }
    if At(code, positions) != {} { var f := AnyOf(At(code, positions)); }
  }

  lemma {:induction false} RestatedFinding(keccak: Hash, expected: seq<ComputedAnchor>, served: ServedIndex,
                                           published: seq<ComputedAnchor>, f: Finding)
    requires Complete(keccak, served.streamId, expected) && |expected| == |published|
    ensures HonestFinding(expected, served, published, f) <==>
              f in At(ALTERED, Restatements(published, expected)) + Contests(served)
  {
    hide WellChained, ByKey, At, Contests, Complete;
    CompleteDisclosed(keccak, served.streamId, expected);
    AtMember(ALTERED, Restatements(published, expected), f);
    ContestsMember(served, f);
  }

  ghost function Suppressed(published: seq<ComputedAnchor>, expected: seq<ComputedAnchor>): set<int> {
    set s | 0 <= s < |published| && s !in ByKey(AnchorSeq(), expected)
  }

  /** Leaving records of a whole stream out: one MISSING for each of them and one COUNT-MISMATCH, beside the conflicts
      served, exit 3. */
  lemma {:induction false} SuppressedRecordsAreNamed(keccak: Hash, expected: seq<ComputedAnchor>, served: ServedIndex,
                                                     published: seq<ComputedAnchor>)
    requires Complete(keccak, served.streamId, published) && Serves(served, PublishedRows(published))
    requires WellChained(keccak, served.streamId, expected)
    requires forall i :: 0 <= i < |expected| ==>
               && 0 <= expected[i].seqNo < |published|
               && expected[i].ciphertextDigest == published[expected[i].seqNo].ciphertextDigest
    requires Suppressed(published, expected) != {}
    ensures Reports(Compare(keccak, expected, served), Counted(MISSING, Suppressed(published, expected), served), 3)
  {
    var all, verdict := Counted(MISSING, Suppressed(published, expected), served), VerdictOf(keccak, expected, served);
    AgainstHonestIndex(keccak, expected, served, published);
    FewerDisclosed(keccak, served.streamId, expected, published);
    forall f ensures f in verdict.findings <==> f in all { SuppressedFinding(keccak, expected, served, published, f); }
    CompletedReport(keccak, expected, served, MISSING, Suppressed(published, expected));
  }

  /** Findings at some positions, the count mismatch they cause, and the conflicts served. */
  ghost function Counted(code: FindingCode, positions: set<int>, served: ServedIndex): set<Finding> {
    At(code, positions) + {Finding(COUNT_MISMATCH, None)} + Contests(served)
  }

  lemma CountedMember(code: FindingCode, positions: set<int>, served: ServedIndex, f: Finding)
    ensures f in Counted(code, positions, served) <==>
              || (f.code == code && f.seqNo.Some? && f.seqNo.value in positions)
              || f == Finding(COUNT_MISMATCH, None)
              || (f.code == CONFLICT && f.seqNo.Some?
                  && exists i :: 0 <= i < |served.conflicts| && served.conflicts[i].seqNo == f.seqNo.value)
  {
    hide At, Contests;
    AtMember(code, positions, f);
    ContestsMember(served, f);
  }

  lemma {:induction false} CountedReport(verdict: Verdict, code: FindingCode, positions: set<int>, served: ServedIndex)
    requires positions != {} && (code == GAP || code == MISSING)
    requires Exits(verdict) && ListsOnly(verdict.findings, Counted(code, positions, served))
    ensures Reports(Ok(verdict), Counted(code, positions, served), ExitFor(code))
  {
    hide Reports, Exits, ListsOnly, Counted;
    var s := AnyOf(positions);
    var all := Counted(code, positions, served);
    CountedMember(code, positions, served, Finding(code, Some(s)));
    forall f | f in all ensures ExitFor(f.code) >= ExitFor(code) { CountedMember(code, positions, served, f); }
    ReportsExactly(verdict, all, code);
  }

  lemma {:induction false} CompletedReport(keccak: Hash, expected: seq<ComputedAnchor>, served: ServedIndex,
                                           code: FindingCode, positions: set<int>)
    requires Compare(keccak, expected, served) == Ok(VerdictOf(keccak, expected, served))
    requires positions != {} && (code == GAP || code == MISSING)
    requires ListsOnly(VerdictOf(keccak, expected, served).findings, Counted(code, positions, served))
    ensures Reports(Compare(keccak, expected, served), Counted(code, positions, served), ExitFor(code))
  {
    VerdictExit(keccak, expected, served);
    CountedReport(VerdictOf(keccak, expected, served), code, positions, served);
  }

  lemma {:induction false} SuppressedFinding(keccak: Hash, expected: seq<ComputedAnchor>, served: ServedIndex,
                                             published: seq<ComputedAnchor>, f: Finding)
    requires WellChained(keccak, served.streamId, expected) && |expected| < |published|
    requires forall i :: 0 <= i < |expected| ==>
               && 0 <= expected[i].seqNo < |published|
               && expected[i].ciphertextDigest == published[expected[i].seqNo].ciphertextDigest
    ensures HonestFinding(expected, served, published, f) <==> f in Counted(MISSING, Suppressed(published, expected), served)
  {
    hide WellChained, Counted, Contests, At;
    DisclosedAnchors(keccak, served.streamId, expected);
    CountedMember(MISSING, Suppressed(published, expected), served, f);
  }

  lemma {:induction false} FewerDisclosed(keccak: Hash, streamId: Bytes, expected: seq<ComputedAnchor>, published: seq<ComputedAnchor>)
    requires WellChained(keccak, streamId, expected) && FromZero(published)
    requires forall i :: 0 <= i < |expected| ==> 0 <= expected[i].seqNo < |published|
    requires Suppressed(published, expected) != {}
    ensures |expected| < |published|
  {
    DisclosedAnchors(keccak, streamId, expected);
    var some, all := Map(AnchorSeq(), expected), Map(AnchorSeq(), published);
    forall i, j | 0 <= i < j < |some| ensures some[i] != some[j] {
      assert AnchorSeq()(expected[i]) < AnchorSeq()(expected[j]);
    }
    DistinctCount(some);
    DistinctCount(all);
    var s := AnyOf(Suppressed(published, expected));
    assert all[s] == s;
    forall k | k in Elements(some) ensures k in Elements(all) && k != s {
      var i :| 0 <= i < |some| && some[i] == k;
      assert expected[i].seqNo in ByKey(AnchorSeq(), expected);
      assert all[k] == k;
    }
    StrictSubsetSize(Elements(some), Elements(all), s);
  }

  lemma {:induction false} StrictSubsetSize<T>(a: set<T>, b: set<T>, x: T)
    requires forall k :: k in a ==> k in b && k != x
    requires x in b
    ensures |a| < |b|
  {
    assert b == a + {x} + (b - a - {x});
  }

  // ----- dishonest servers ------------------------------------------------------------------------

  /** Withholding any rows of a whole stream: one GAP for each of them and one COUNT-MISMATCH, beside the conflicts
      served, exit 4. */
  lemma {:induction false} DroppedRowsAreNamed(keccak: Hash, expected: seq<ComputedAnchor>, served: ServedIndex,
                                               dropped: set<int>)
    requires Complete(keccak, served.streamId, expected) && Serves(served, KeptRows(expected, dropped))
    requires dropped != {} && forall s :: s in dropped ==> 0 <= s < |expected|
    ensures Reports(Compare(keccak, expected, served), Counted(GAP, dropped, served), 4)
  {
    hide Complete, Serves, Counted, Reports, Compare, VerdictOf, KeptRows, ListsOnly;
    KeptCompletes(keccak, expected, served, dropped);
    DroppedFindings(keccak, expected, served, dropped);
    CompletedReport(keccak, expected, served, GAP, dropped);
  }

  lemma {:induction false} KeptCompletes(keccak: Hash, expected: seq<ComputedAnchor>, served: ServedIndex, dropped: set<int>)
    requires Complete(keccak, served.streamId, expected) && Serves(served, KeptRows(expected, dropped))
    ensures Compare(keccak, expected, served) == Ok(VerdictOf(keccak, expected, served))
  {
    KeptHeld(keccak, served, expected, dropped);
  }

  lemma {:induction false} DroppedFindings(keccak: Hash, expected: seq<ComputedAnchor>, served: ServedIndex, dropped: set<int>)
    requires Complete(keccak, served.streamId, expected) && Serves(served, KeptRows(expected, dropped))
    requires dropped != {} && forall s :: s in dropped ==> 0 <= s < |expected|
    ensures ListsOnly(VerdictOf(keccak, expected, served).findings, Counted(GAP, dropped, served))
  {
    var findings, all := VerdictOf(keccak, expected, served).findings, Counted(GAP, dropped, served);
    ChainedFindings(keccak, expected, served);
    forall f ensures f in findings <==> f in all {
      assert f in findings <==> Found(keccak, expected, served, f);
      DroppedFinding(keccak, expected, served, dropped, f);
    }
  }

  lemma {:induction false} DroppedFinding(keccak: Hash, expected: seq<ComputedAnchor>, served: ServedIndex,
                                          dropped: set<int>, f: Finding)
    requires Complete(keccak, served.streamId, expected) && Serves(served, KeptRows(expected, dropped))
    requires dropped != {} && forall s :: s in dropped ==> 0 <= s < |expected|
    ensures Found(keccak, expected, served, f) <==> f in Counted(GAP, dropped, served)
  {
    var d := AnyOf(dropped);
    CountedMember(GAP, dropped, served, f);
    ContestsMember(served, f);
    match f {
      case Finding(code, Some(s)) => DroppedFindingAt(keccak, expected, served, dropped, code, s);
      case Finding(code, None) =>
        KeptHeld(keccak, served, expected, dropped);
        KeptRowsDistinct(keccak, served.streamId, expected, dropped);
    }
  }

  lemma {:induction false} DroppedFindingAt(keccak: Hash, expected: seq<ComputedAnchor>, served: ServedIndex,
                                            dropped: set<int>, code: FindingCode, s: int)
    requires Complete(keccak, served.streamId, expected) && Serves(served, KeptRows(expected, dropped))
    requires forall s :: s in dropped ==> 0 <= s < |expected|
    ensures Found(keccak, expected, served, Finding(code, Some(s))) <==>
              (code == GAP && s in dropped) || Finding(code, Some(s)) in Contests(served)
  {
    var v := SidesOf(keccak, expected, served);
    KeptHeld(keccak, served, expected, dropped);
    CompleteDisclosed(keccak, served.streamId, expected);
    ContestsMember(served, Finding(code, Some(s)));
    match code {
      case ALTERED => AlteredExactly(keccak, expected, served, s);
        if s in v.held { assert ServedRow()(v.held[s]) == AnchorRow()(expected[s]); }
      case GAP =>
        if s in v.disclosed { DisclosedIsHighest(keccak, served.streamId, expected, s); }
      case _ =>
    }
  }

  lemma {:induction false} CompleteDisclosed(keccak: Hash, streamId: Bytes, expected: seq<ComputedAnchor>)
    requires Complete(keccak, streamId, expected)
    ensures var disclosed := ByKey(AnchorSeq(), expected);
            && (forall s :: s in disclosed <==> 0 <= s < |expected|)
            && forall s :: 0 <= s < |expected| ==> disclosed[s] == expected[s]
  {
    DisclosedAnchors(keccak, streamId, expected);
    var disclosed := ByKey(AnchorSeq(), expected);
    forall s | 0 <= s < |expected| ensures s in disclosed && disclosed[s] == expected[s] { assert expected[s].seqNo == s; }
    forall s | s in disclosed ensures 0 <= s < |expected| {
      var i :| 0 <= i < |expected| && expected[i] == disclosed[s];
    }
  }

  /** An anchor with another backward link, and the digest that goes with it. */
  ghost function Relinked(keccak: Hash, streamId: Bytes, a: ComputedAnchor, prev: Bytes): Row {
    Row(a.seqNo, a.ciphertextDigest, Some(prev), Some(RowDigest(keccak, streamId, a.seqNo, a.ciphertextDigest, prev)))
  }

  ghost function RelinkedRow(keccak: Hash, streamId: Bytes, published: seq<ComputedAnchor>, k: int, prev: Bytes, i: int): Row
    requires 0 <= i < |published|
  {
    if i == k then Relinked(keccak, streamId, published[i], prev) else AnchorRow()(published[i])
  }

  ghost function RelinkedRows(keccak: Hash, streamId: Bytes, published: seq<ComputedAnchor>, k: int, prev: Bytes): set<Row> {
    set i | 0 <= i < |published| :: RelinkedRow(keccak, streamId, published, k, prev, i)
  }

  lemma RelinkedConsistent(keccak: Hash, streamId: Bytes, published: seq<ComputedAnchor>, k: nat, prev: Bytes)
    requires Complete(keccak, streamId, published) && |prev| == 32
    ensures forall r :: r in RelinkedRows(keccak, streamId, published, k, prev) ==> SelfConsistent(keccak, streamId, r)
  {
    hide WellChained, RowDigest;
    forall r | r in RelinkedRows(keccak, streamId, published, k, prev) ensures SelfConsistent(keccak, streamId, r) {
      var i :| 0 <= i < |published| && RelinkedRow(keccak, streamId, published, k, prev, i) == r;
      CompleteLinks(keccak, streamId, published, i);
    }
  }

  lemma {:induction false} RelinkedHeld(keccak: Hash, served: ServedIndex, published: seq<ComputedAnchor>, k: nat, prev: Bytes)
    requires Complete(keccak, served.streamId, published) && k < |published| && |prev| == 32
    requires Serves(served, RelinkedRows(keccak, served.streamId, published, k, prev))
    ensures var held := ByKey(ServedSeq(), served.anchors);
            && (forall s :: s in held <==> 0 <= s < |published|)
            && (forall s :: 0 <= s < |published| ==>
                  ServedRow()(held[s]) == RelinkedRow(keccak, served.streamId, published, k, prev, s))
    ensures RowError(served.streamId, served.anchors, |served.anchors|).None?
    ensures InconsistentSeqs(keccak, served.streamId, served.anchors, |served.anchors|) == {}
    ensures |served.anchors| == |published|
  {
    hide ByKey, RowError, InconsistentSeqs, OnePerPosition, WellChained, RowDigest, SelfConsistent, Serves;
    var rows, held := RelinkedRows(keccak, served.streamId, published, k, prev), ByKey(ServedSeq(), served.anchors);
    RelinkedRowsDistinct(keccak, served.streamId, published, k, prev);
    HeldFromRows(served, rows);
    RelinkedConsistent(keccak, served.streamId, published, k, prev);
    ConsistentRows(keccak, served, rows);
    forall s | 0 <= s < |published|
      ensures s in held && ServedRow()(held[s]) == RelinkedRow(keccak, served.streamId, published, k, prev, s)
    {
      assert RelinkedRow(keccak, served.streamId, published, k, prev, s) in rows;
    }
    forall s | s in held ensures 0 <= s < |published| {
      var i :| 0 <= i < |published| && RelinkedRow(keccak, served.streamId, published, k, prev, i) == ServedRow()(held[s]);
    }
  }

  lemma {:induction false} RelinkedRowsDistinct(keccak: Hash, streamId: Bytes, published: seq<ComputedAnchor>, k: int, prev: Bytes)
    requires FromZero(published)
    ensures OnePerPosition(RelinkedRows(keccak, streamId, published, k, prev))
    ensures |RelinkedRows(keccak, streamId, published, k, prev)| == |published|
  {
    var rows := RelinkedRows(keccak, streamId, published, k, prev);
    var list := seq(|published|, i requires 0 <= i < |published| => RelinkedRow(keccak, streamId, published, k, prev, i));
    assert forall i :: 0 <= i < |list| ==> list[i].seqNo == i;
    assert NoDup(list) by {
      forall i, j | 0 <= i < j < |list| ensures list[i] != list[j] { assert list[i].seqNo == i && list[j].seqNo == j; }
    }
    DistinctCount(list);
    forall r ensures r in Elements(list) <==> r in rows {
      if r in rows {
        var i :| 0 <= i < |published| && RelinkedRow(keccak, streamId, published, k, prev, i) == r;
        assert list[i] == r;
      }
    }
    assert Elements(list) == rows;
  }

  lemma {:induction false} RelinkedLink(keccak: Hash, served: ServedIndex, published: seq<ComputedAnchor>,
                                        k: nat, prev: Bytes, s: nat)
    requires Complete(keccak, served.streamId, published) && k < |published| && |prev| == 32 && s < |published|
    requires published[k].prevEnvelopeDigest != Some(prev)
    requires Serves(served, RelinkedRows(keccak, served.streamId, published, k, prev))
    ensures var held := ByKey(ServedSeq(), served.anchors);
            && s in held && Resolvable(held, s)
            && (s == k ==> LinkDiffers(held, s)) && (s != k && s != k + 1 ==> !LinkDiffers(held, s))
  {
    hide WellChained, ByKey, RelinkedRows, Serves, RowError, InconsistentSeqs, RowDigest;
    var held := ByKey(ServedSeq(), served.anchors);
    RelinkedHeld(keccak, served, published, k, prev);
    CompleteLinks(keccak, served.streamId, published, s);
    assert ServedRow()(held[s]) == RelinkedRow(keccak, served.streamId, published, k, prev, s);
    if s > 0 { assert ServedRow()(held[s - 1]) == RelinkedRow(keccak, served.streamId, published, k, prev, s - 1); }
  }

  /** Only the rewritten link is broken: the one after it, if it differs, rests on a broken row. */
  lemma {:induction false} OneBreak(held: map<int, ServedAnchor>, n: nat, k: nat, s: int)
    requires k < n && forall t :: t in held <==> 0 <= t < n
    requires forall t :: 0 <= t < n && t != k && t != k + 1 ==> !LinkDiffers(held, t)
    requires LinkDiffers(held, k)
    ensures Broken(held, {}, s) <==> s == k
  {
    assert Broken(held, {}, k) by {
      if k > 0 { assert !Broken(held, {}, k - 1); }
    }
  }

  /** Rewriting one backward link of a whole stream and re-hashing the row: one CHAIN-BREAK there, beside the
      conflicts served, exit 5, whether or not the new digest collides with the old one. */
  lemma {:induction false} RewrittenLinkIsNamed(keccak: Hash, expected: seq<ComputedAnchor>, served: ServedIndex,
                                                k: nat, prev: Bytes)
    requires Complete(keccak, served.streamId, expected) && k < |expected| && |prev| == 32
    requires expected[k].prevEnvelopeDigest != Some(prev)
    requires Serves(served, RelinkedRows(keccak, served.streamId, expected, k, prev))
    ensures Reports(Compare(keccak, expected, served), {Finding(CHAIN_BREAK, Some(k))} + Contests(served), 5)
  {
    hide WellChained, Contests, Reports, Exits, ListsOnly, Complete, Serves, RelinkedRows, Compare, VerdictOf;
    RelinkedCompletes(keccak, expected, served, k, prev);
    RewrittenFindings(keccak, expected, served, k, prev);
    VerdictExit(keccak, expected, served);
    OneBreakReport(VerdictOf(keccak, expected, served), k, served);
  }

  lemma {:induction false} OneBreakReport(verdict: Verdict, k: nat, served: ServedIndex)
    requires Exits(verdict) && ListsOnly(verdict.findings, {Finding(CHAIN_BREAK, Some(k))} + Contests(served))
    ensures Reports(Ok(verdict), {Finding(CHAIN_BREAK, Some(k))} + Contests(served), 5)
  {
    hide Reports, Exits, ListsOnly, Contests;
    var all := {Finding(CHAIN_BREAK, Some(k))} + Contests(served);
    assert Finding(CHAIN_BREAK, Some(k)) in all;
    forall f | f in all ensures ExitFor(f.code) >= ExitFor(CHAIN_BREAK) { ContestsMember(served, f); }
    ReportsExactly(verdict, all, CHAIN_BREAK);
  }

  lemma {:induction false} RelinkedCompletes(keccak: Hash, expected: seq<ComputedAnchor>, served: ServedIndex, k: nat, prev: Bytes)
    requires Complete(keccak, served.streamId, expected) && k < |expected| && |prev| == 32
    requires Serves(served, RelinkedRows(keccak, served.streamId, expected, k, prev))
    ensures Compare(keccak, expected, served) == Ok(VerdictOf(keccak, expected, served))
  {
    RelinkedHeld(keccak, served, expected, k, prev);
  }

  lemma {:induction false} RewrittenFindings(keccak: Hash, expected: seq<ComputedAnchor>, served: ServedIndex, k: nat, prev: Bytes)
    requires Complete(keccak, served.streamId, expected) && k < |expected| && |prev| == 32
    requires expected[k].prevEnvelopeDigest != Some(prev)
    requires Serves(served, RelinkedRows(keccak, served.streamId, expected, k, prev))
    ensures ListsOnly(VerdictOf(keccak, expected, served).findings, {Finding(CHAIN_BREAK, Some(k))} + Contests(served))
  {
    var findings := VerdictOf(keccak, expected, served).findings;
    ChainedFindings(keccak, expected, served);
    forall f ensures f in findings <==> f in {Finding(CHAIN_BREAK, Some(k))} + Contests(served) {
      assert f in findings <==> Found(keccak, expected, served, f);
      RewrittenFinding(keccak, expected, served, k, prev, f);
    }
  }

  lemma {:induction false} RewrittenFinding(keccak: Hash, expected: seq<ComputedAnchor>, served: ServedIndex,
                                            k: nat, prev: Bytes, f: Finding)
    requires Complete(keccak, served.streamId, expected) && k < |expected| && |prev| == 32
    requires expected[k].prevEnvelopeDigest != Some(prev)
    requires Serves(served, RelinkedRows(keccak, served.streamId, expected, k, prev))
    ensures Found(keccak, expected, served, f) <==> f == Finding(CHAIN_BREAK, Some(k)) || f in Contests(served)
  {
    ContestsMember(served, f);
    match f {
      case Finding(code, Some(s)) => RewrittenFindingAt(keccak, expected, served, k, prev, code, s);
      case Finding(code, None) => RelinkedHeld(keccak, served, expected, k, prev);
    }
  }

  lemma {:induction false} RewrittenFindingAt(keccak: Hash, expected: seq<ComputedAnchor>, served: ServedIndex,
                                              k: nat, prev: Bytes, code: FindingCode, s: int)
    requires Complete(keccak, served.streamId, expected) && k < |expected| && |prev| == 32
    requires expected[k].prevEnvelopeDigest != Some(prev)
    requires Serves(served, RelinkedRows(keccak, served.streamId, expected, k, prev))
    ensures Found(keccak, expected, served, Finding(code, Some(s))) <==>
              (code == CHAIN_BREAK && s == k) || Finding(code, Some(s)) in Contests(served)
  {
    hide WellChained, ByKey, Contests;
    var v := SidesOf(keccak, expected, served);
    RelinkedHeld(keccak, served, expected, k, prev);
    CompleteDisclosed(keccak, served.streamId, expected);
    ContestsMember(served, Finding(code, Some(s)));
    match code {
      case ALTERED => AlteredExactly(keccak, expected, served, s);
        if s in v.held {
          assert ServedRow()(v.held[s]) == RelinkedRow(keccak, served.streamId, expected, k, prev, s);
        }
      case CHAIN_BREAK =>
        forall t | 0 <= t < |expected| ensures t != k && t != k + 1 ==> !LinkDiffers(v.held, t) {
          RelinkedLink(keccak, served, expected, k, prev, t);
        }
        RelinkedLink(keccak, served, expected, k, prev, k);
        OneBreak(v.held, |expected|, k, s);
      case _ =>
    }
  }

  // ----- the pass verdict ---------------------------------------------------------------------------

  /** The two sides carry the same rows, up to order. */
  ghost predicate SameRows(expected: seq<ComputedAnchor>, served: ServedIndex) {
    multiset(Rows(served)) == multiset(Map(AnchorRow(), expected))
  }

  /** A verdict without findings, one condition at a time. */
  ghost predicate Clean(v: Sides, expected: seq<ComputedAnchor>, served: ServedIndex) {
    && v.inconsistent == {} && v.altered == {} && v.held.Keys == v.disclosed.Keys
    && (forall s :: !Broken(v.held, v.inconsistent, s))
    && (forall s, t :: 0 <= s < t && t in v.held ==> s in v.held)
    && served.conflicts == [] && |expected| == |served.anchors|
  }

  /** Nothing is found against a well-chained disclosure. */
  ghost predicate Unflagged(keccak: Hash, expected: seq<ComputedAnchor>, served: ServedIndex) {
    WellChained(keccak, served.streamId, expected) && forall f :: !Found(keccak, expected, served, f)
  }

  lemma {:induction false} PassIsClean(keccak: Hash, expected: seq<ComputedAnchor>, served: ServedIndex)
    requires Unflagged(keccak, expected, served)
    ensures Clean(SidesOf(keccak, expected, served), expected, served)
  {
    var v := SidesOf(keccak, expected, served);
    PassHasNoFlags(keccak, expected, served);
    PassCounts(keccak, expected, served);
    PassHasSameKeys(keccak, expected, served);
    PassHasNoHoles(keccak, expected, served);
  }

  lemma {:induction false} PassHasNoFlags(keccak: Hash, expected: seq<ComputedAnchor>, served: ServedIndex)
    requires Unflagged(keccak, expected, served)
    ensures var v := SidesOf(keccak, expected, served);
            v.inconsistent == {} && v.altered == {} && forall s :: !Broken(v.held, v.inconsistent, s)
  {
    var v := SidesOf(keccak, expected, served);
    forall s ensures s !in v.inconsistent && s !in v.altered && !Broken(v.held, v.inconsistent, s) {
      PassHasNoFlag(keccak, expected, served, s);
    }
  }

  lemma {:induction false} PassHasNoFlag(keccak: Hash, expected: seq<ComputedAnchor>, served: ServedIndex, s: int)
    requires Unflagged(keccak, expected, served)
    ensures var v := SidesOf(keccak, expected, served);
            s !in v.inconsistent && s !in v.altered && !Broken(v.held, v.inconsistent, s)
  {
    PassHasNoMismatch(keccak, expected, served, s);
    PassHasNoAlteration(keccak, expected, served, s);
    PassHasNoBreak(keccak, expected, served, s);
  }

  lemma {:induction false} PassHasNoMismatch(keccak: Hash, expected: seq<ComputedAnchor>, served: ServedIndex, s: int)
    requires Unflagged(keccak, expected, served)
    ensures s !in SidesOf(keccak, expected, served).inconsistent
  {
    assert !Found(keccak, expected, served, Finding(ENVELOPE_MISMATCH, Some(s)));
  }

  lemma {:induction false} PassHasNoAlteration(keccak: Hash, expected: seq<ComputedAnchor>, served: ServedIndex, s: int)
    requires Unflagged(keccak, expected, served)
    ensures s !in SidesOf(keccak, expected, served).altered
  {
    assert !Found(keccak, expected, served, Finding(ALTERED, Some(s)));
  }

  lemma {:induction false} PassHasNoBreak(keccak: Hash, expected: seq<ComputedAnchor>, served: ServedIndex, s: int)
    requires Unflagged(keccak, expected, served)
    ensures var v := SidesOf(keccak, expected, served); !Broken(v.held, v.inconsistent, s)
  {
    assert !Found(keccak, expected, served, Finding(CHAIN_BREAK, Some(s)));
  }

  lemma {:induction false} PassCounts(keccak: Hash, expected: seq<ComputedAnchor>, served: ServedIndex)
    requires Unflagged(keccak, expected, served)
    ensures served.conflicts == [] && |expected| == |served.anchors|
  {
    assert !Found(keccak, expected, served, Finding(COUNT_MISMATCH, None));
    var s := ConflictFound(keccak, expected, served);
    assert !Found(keccak, expected, served, Finding(CONFLICT, Some(s)));
  }

  lemma ConflictFound(keccak: Hash, expected: seq<ComputedAnchor>, served: ServedIndex) returns (s: int)
    ensures served.conflicts != [] ==> Found(keccak, expected, served, Finding(CONFLICT, Some(s)))
  {
    s := if served.conflicts == [] then 0 else served.conflicts[0].seqNo;
  }

  lemma {:induction false} PassHasSameKeys(keccak: Hash, expected: seq<ComputedAnchor>, served: ServedIndex)
    requires Unflagged(keccak, expected, served)
    ensures ByKey(ServedSeq(), served.anchors).Keys == ByKey(AnchorSeq(), expected).Keys
  {
    DisclosedAnchors(keccak, served.streamId, expected);
    var disclosed, held := ByKey(AnchorSeq(), expected), ByKey(ServedSeq(), served.anchors);
    forall s ensures s in held <==> s in disclosed {
      assert !Found(keccak, expected, served, Finding(MISSING, Some(s)));
      assert !Found(keccak, expected, served, Finding(GAP, Some(s)));
      if s in disclosed { DisclosedIsHighest(keccak, served.streamId, expected, s); }
    }
  }

  lemma {:induction false} PassHasNoHoles(keccak: Hash, expected: seq<ComputedAnchor>, served: ServedIndex)
    requires Unflagged(keccak, expected, served)
    ensures var held := ByKey(ServedSeq(), served.anchors); forall s, t :: 0 <= s < t && t in held ==> s in held
  {
    var held := ByKey(ServedSeq(), served.anchors);
    forall s, t | 0 <= s < t && t in held ensures s in held { PassHasNoHole(keccak, expected, served, s, t); }
  }

  lemma {:induction false} PassHasNoHole(keccak: Hash, expected: seq<ComputedAnchor>, served: ServedIndex,
                                         s: int, t: int)
    requires Unflagged(keccak, expected, served)
    requires 0 <= s < t && t in ByKey(ServedSeq(), served.anchors)
    ensures s in ByKey(ServedSeq(), served.anchors)
  {
    PassHasSameKeys(keccak, expected, served);
    assert !Found(keccak, expected, served, Finding(GAP, Some(s)));
    assert t in ByKey(AnchorSeq(), expected).Keys;
    DisclosedIsHighest(keccak, served.streamId, expected, s);
  }

  lemma {:induction false} DisclosedPositions(keccak: Hash, streamId: Bytes, expected: seq<ComputedAnchor>)
    requires WellChained(keccak, streamId, expected)
    ensures var a := Map(AnchorSeq(), expected);
            Ascending(a) && Elements(a) == ByKey(AnchorSeq(), expected).Keys && forall s :: s in a ==> s >= 0
  {
    DisclosedAnchors(keccak, streamId, expected);
    var a, disclosed := Map(AnchorSeq(), expected), ByKey(AnchorSeq(), expected);
    forall i, j | 0 <= i < j < |a| ensures a[i] < a[j] { assert AnchorSeq()(expected[i]) < AnchorSeq()(expected[j]); }
    forall i | 0 <= i < |a| ensures a[i] in disclosed && a[i] >= 0 { assert expected[i].seqNo in disclosed; }
    forall s | s in disclosed ensures s in a { var i :| 0 <= i < |expected| && expected[i] == disclosed[s]; assert a[i] == s; }
  }

  lemma {:induction false} ServedKeys(rows: seq<ServedAnchor>)
    ensures Elements(Map(ServedSeq(), rows)) == ByKey(ServedSeq(), rows).Keys
  {
    HeldRows(rows);
    var b, held := Map(ServedSeq(), rows), ByKey(ServedSeq(), rows);
    forall i | 0 <= i < |b| ensures b[i] in held { assert rows[i].seqNo in held; }
    forall s | s in held ensures s in b { var i :| 0 <= i < |rows| && rows[i] == held[s]; assert b[i] == s; }
  }

  /** Counting: as many rows as positions, so each position is served once, and the positions count from 0. */
  lemma {:induction false} CleanPositions(keccak: Hash, expected: seq<ComputedAnchor>, served: ServedIndex)
    requires WellChained(keccak, served.streamId, expected)
    requires Clean(SidesOf(keccak, expected, served), expected, served)
    ensures NoDup(Map(ServedSeq(), served.anchors)) && FromZero(expected)
  {
    var held := ByKey(ServedSeq(), served.anchors);
    DisclosedPositions(keccak, served.streamId, expected);
    ServedKeys(served.anchors);
    var a, b := Map(AnchorSeq(), expected), Map(ServedSeq(), served.anchors);
    assert Elements(a) == Elements(b);
    assert NoDup(a);
    DistinctCount(a);
    DistinctCount(b);
    CountsFromZero(a, held.Keys);
  }

  lemma {:induction false} CountsFromZero(a: seq<int>, keys: set<int>)
    requires Ascending(a) && Elements(a) == keys && forall s :: s in a ==> s >= 0
    requires forall s, t :: 0 <= s < t && t in keys ==> s in keys
    ensures forall i :: 0 <= i < |a| ==> a[i] == i
  {
    forall i | 0 <= i < |a| ensures a[i] == i {
      var last := a[|a| - 1];
      assert last in Elements(a) && a[0] in a;
      forall k | 0 <= k < last ensures k in a { assert k in Elements(a); }
      AscendingFromZero(a, i);
    }
  }

  /** Row by row up the chain: the link agrees because the digest below does, the digest because the fields do. */
  lemma {:induction false} CleanRow(keccak: Hash, expected: seq<ComputedAnchor>, served: ServedIndex, s: nat)
    requires WellChained(keccak, served.streamId, expected) && FromZero(expected) && s < |expected|
    requires Clean(SidesOf(keccak, expected, served), expected, served)
    ensures var held := ByKey(ServedSeq(), served.anchors);
            s in held && ServedRow()(held[s]) == AnchorRow()(expected[s])
  {
    hide Linked, WellChained, ByKey;
    var v := SidesOf(keccak, expected, served);
    DisclosedAt(keccak, served.streamId, expected, s);
    if s > 0 {
      CleanRow(keccak, expected, served, s - 1);
      DisclosedAt(keccak, served.streamId, expected, s - 1);
    }
    CleanRowStep(keccak, served.streamId, v, s);
    SameRowDigest(keccak, served, s);
    AlteredExactly(keccak, expected, served, s);
  }

  lemma {:induction false} DisclosedAt(keccak: Hash, streamId: Bytes, expected: seq<ComputedAnchor>, s: nat)
    requires WellChained(keccak, streamId, expected) && FromZero(expected) && s < |expected|
    ensures var disclosed := ByKey(AnchorSeq(), expected);
            && s in disclosed && disclosed[s] == expected[s] && disclosed[s].seqNo == s
            && Linked(keccak, streamId, disclosed, disclosed[s])
  {
    DisclosedAnchors(keccak, streamId, expected);
    assert expected[s].seqNo == s;
  }

  lemma {:induction false} CleanRowStep(keccak: Hash, streamId: Bytes, v: Sides, s: nat)
    requires s in v.held && s in v.disclosed && v.disclosed[s].seqNo == s
    requires Linked(keccak, streamId, v.disclosed, v.disclosed[s])
    requires v.inconsistent == {} && forall t :: !Broken(v.held, v.inconsistent, t)
    requires s > 0 ==> s - 1 in v.held && s - 1 in v.disclosed
                       && ServedRow()(v.held[s - 1]) == AnchorRow()(v.disclosed[s - 1])
    ensures v.disclosed[s].prevEnvelopeDigest == Some(v.held[s].prevEnvelopeDigest)
  {
    assert !Broken(v.held, v.inconsistent, s);
    assert s > 0 ==> Trusted(v.held, v.inconsistent, s - 1);
  }

  lemma {:induction false} CleanSameRows(keccak: Hash, expected: seq<ComputedAnchor>, served: ServedIndex)
    requires WellChained(keccak, served.streamId, expected) && FromZero(expected)
    requires Clean(SidesOf(keccak, expected, served), expected, served)
    requires NoDup(Map(ServedSeq(), served.anchors))
    ensures SameRows(expected, served)
  {
    var a, b := Map(AnchorRow(), expected), Rows(served);
    forall i, j | 0 <= i < j < |b| ensures b[i] != b[j] {
      assert Map(ServedSeq(), served.anchors)[i] != Map(ServedSeq(), served.anchors)[j];
    }
    assert NoDup(a) by { assert forall i :: 0 <= i < |a| ==> a[i].seqNo == i; }
    forall r ensures r in a <==> r in b {
      if r in a { var i :| 0 <= i < |a| && a[i] == r; ComputedRowServed(keccak, expected, served, i); }
      if r in b { var j :| 0 <= j < |b| && b[j] == r; ServedRowComputed(keccak, expected, served, j); }
    }
    SameElements(a, b);
  }

  lemma {:induction false} ComputedRowServed(keccak: Hash, expected: seq<ComputedAnchor>, served: ServedIndex, i: nat)
    requires WellChained(keccak, served.streamId, expected) && FromZero(expected) && i < |expected|
    requires Clean(SidesOf(keccak, expected, served), expected, served)
    ensures AnchorRow()(expected[i]) in Rows(served)
  {
    CleanRow(keccak, expected, served, i);
    HeldRows(served.anchors);
    var j :| 0 <= j < |served.anchors| && served.anchors[j] == ByKey(ServedSeq(), served.anchors)[i];
    assert Rows(served)[j] == AnchorRow()(expected[i]);
  }

  lemma {:induction false} ServedRowComputed(keccak: Hash, expected: seq<ComputedAnchor>, served: ServedIndex, j: nat)
    requires WellChained(keccak, served.streamId, expected) && FromZero(expected) && j < |served.anchors|
    requires Clean(SidesOf(keccak, expected, served), expected, served)
    requires NoDup(Map(ServedSeq(), served.anchors))
    ensures Rows(served)[j] in Map(AnchorRow(), expected)
  {
    HeldRows(served.anchors);
    CompleteKeys(keccak, served.streamId, expected);
    var held, seqs, s := ByKey(ServedSeq(), served.anchors), Map(ServedSeq(), served.anchors), served.anchors[j].seqNo;
    assert s in held && s in ByKey(AnchorSeq(), expected);
    CleanRow(keccak, expected, served, s);
    var k :| 0 <= k < |served.anchors| && served.anchors[k] == held[s];
    assert seqs[j] == seqs[k];
    assert Map(AnchorRow(), expected)[s] == Rows(served)[j];
  }

  lemma {:induction false} CompleteKeys(keccak: Hash, streamId: Bytes, expected: seq<ComputedAnchor>)
    requires WellChained(keccak, streamId, expected) && FromZero(expected)
    ensures forall s :: s in ByKey(AnchorSeq(), expected) <==> 0 <= s < |expected|
  {
    DisclosedAnchors(keccak, streamId, expected);
    forall s | 0 <= s < |expected| ensures s in ByKey(AnchorSeq(), expected) { assert expected[s].seqNo == s; }
  }

  /** Equal rows and positions counting from 0 are an honest index of a whole stream. */
  lemma {:induction false} SameRowsAreServed(keccak: Hash, expected: seq<ComputedAnchor>, served: ServedIndex)
    requires FromZero(expected) && SameRows(expected, served)
    ensures Serves(served, PublishedRows(expected)) && |served.anchors| == |expected|
  {
    var a, b := Map(AnchorRow(), expected), Rows(served);
    assert |multiset(a)| == |a| && |multiset(b)| == |b|;
    assert NoDup(a) by { assert forall i :: 0 <= i < |a| ==> a[i].seqNo == i; }
    forall r ensures r in a <==> r in b { assert r in multiset(a) <==> r in multiset(b); }
    assert Elements(a) == Elements(b);
    DistinctCount(a);
    DistinctCount(b);
    forall r ensures r in Elements(a) <==> r in PublishedRows(expected) {
      if r in a { var i :| 0 <= i < |a| && a[i] == r; assert AnchorRow()(expected[i]) == r; }
      if r in PublishedRows(expected) { var i :| 0 <= i < |expected| && AnchorRow()(expected[i]) == r; assert a[i] == r; }
    }
    assert Elements(a) == PublishedRows(expected);
  }

  /** The run passes if and only if there is no conflict, the positions are exactly 0..n-1 and the served rows are the
      computed ones, up to order; and it exits 0 only if it passes. Nothing is assumed about the hash. */
  lemma {:induction false} ExactVerdict(keccak: Hash, expected: seq<ComputedAnchor>, served: ServedIndex)
    requires WellChained(keccak, served.streamId, expected)
    ensures Passes(Compare(keccak, expected, served)) <==>
              served.conflicts == [] && FromZero(expected) && SameRows(expected, served)
    ensures Compare(keccak, expected, served).Ok? && Compare(keccak, expected, served).value.exitCode == 0 ==>
              Passes(Compare(keccak, expected, served))
  {
    VerdictExit(keccak, expected, served);
    ExitZero(VerdictOf(keccak, expected, served).findings);
    if Passes(Compare(keccak, expected, served)) {
      PassIsUnflagged(keccak, expected, served);
      PassIsClean(keccak, expected, served);
      CleanPositions(keccak, expected, served);
      CleanSameRows(keccak, expected, served);
    }
    if served.conflicts == [] && FromZero(expected) && SameRows(expected, served) {
      SameRowsAreServed(keccak, expected, served);
      HonestPasses(keccak, expected, served);
    }
  }

  ghost predicate Passes(outcome: Result<Verdict, EncodeError>) { outcome.Ok? && outcome.value.ok && outcome.value.exitCode == 0 }

  lemma {:induction false} PassIsUnflagged(keccak: Hash, expected: seq<ComputedAnchor>, served: ServedIndex)
    requires WellChained(keccak, served.streamId, expected) && VerdictOf(keccak, expected, served).findings == []
    ensures Unflagged(keccak, expected, served)
  {
    ChainedFindings(keccak, expected, served);
    forall f ensures !Found(keccak, expected, served, f) { assert f !in VerdictOf(keccak, expected, served).findings; }
  }

  lemma {:induction false} ExitZero(findings: seq<Finding>)
    ensures LowestExit(findings, |findings|) != 0
  {
    LowestExitBound(findings, |findings|, 2);
  }

  lemma {:induction false} NothingToFind(keccak: Hash, expected: seq<ComputedAnchor>, served: ServedIndex, f: Finding)
    requires Complete(keccak, served.streamId, expected) && served.conflicts == []
    ensures !HonestFinding(expected, served, expected, f)
  {
    CompleteDisclosed(keccak, served.streamId, expected);
  }

  lemma {:induction false} HonestPasses(keccak: Hash, expected: seq<ComputedAnchor>, served: ServedIndex)
    requires WellChained(keccak, served.streamId, expected)
    requires served.conflicts == [] && FromZero(expected) && Serves(served, PublishedRows(expected))
    requires |served.anchors| == |expected|
    ensures Passes(Compare(keccak, expected, served))
  {
    VerdictExit(keccak, expected, served);
    if expected == [] {
      assert Candidates(keccak, expected, served) == [];
    } else {
      AgainstHonestIndex(keccak, expected, served, expected);
      var findings := VerdictOf(keccak, expected, served).findings;
      forall f ensures f !in findings { NothingToFind(keccak, expected, served, f); }
      NoMembers(findings);
    }
  }
}
