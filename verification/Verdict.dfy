/** What a source serves for one stream: completeness-checker/types.ts. */
module ServedIndexes {
  import opened Basics
  import opened ByteCodec

  datatype ServedAnchor = ServedAnchor(
    seqNo: int,
    ciphertextDigest: Bytes,
    prevEnvelopeDigest: Bytes,
    envelopeDigest: Bytes,
    duplicateCount: int,
    submitter: Option<Bytes>,
    txHash: Option<Bytes>,
    blockNumber: Option<int>)

  datatype ServedConflict = ServedConflict(
    seqNo: int, envelopeDigest: Bytes, txHash: Option<Bytes>, blockNumber: Option<int>)

  datatype ServedMalformed = ServedMalformed(
    reason: string, payloadLength: Option<int>, txHash: Option<Bytes>, blockNumber: Option<int>)

  datatype ServedIndex = ServedIndex(
    streamId: Bytes, anchors: seq<ServedAnchor>, conflicts: seq<ServedConflict>, malformed: seq<ServedMalformed>)

  function ServedSeq(): ServedAnchor -> int { (a: ServedAnchor) => a.seqNo }
}

/** The verdict engine of completeness-checker/compare.ts. */
module Verdicts {
  import opened Basics
  import opened ByteCodec
  import opened Envelope
  import opened AnchorStream
  import opened ServedIndexes

  datatype FindingCode = ALTERED | MISSING | GAP | CHAIN_BREAK | CONFLICT | ENVELOPE_MISMATCH | COUNT_MISMATCH

  function ExitFor(code: FindingCode): int {
    match code
    case ALTERED => 2
    case MISSING => 3
    case GAP => 4
    case CHAIN_BREAK => 5
    case CONFLICT => 6
    case ENVELOPE_MISMATCH => 7
    case COUNT_MISMATCH => 8
  }

  const MAX_SAFE_INTEGER: int := 9007199254740991

  /** A finding without its prose. Equal findings are the ones `seen` identifies. */
  datatype Finding = Finding(code: FindingCode, seqNo: Option<int>)

  datatype NoteCode = DUPLICATE | UNRESOLVABLE_LINK | DOWNSTREAM | MALFORMED

  datatype Note = Note(code: NoteCode, seqNo: Option<int>)

  datatype Summary = Summary(
    disclosedCount: nat, servedCount: nat, duplicateCount: int, conflictCount: nat, malformedCount: nat,
    checkedLinks: nat, unresolvableLinks: nat)

  datatype Verdict = Verdict(ok: bool, exitCode: int, findings: seq<Finding>, notes: seq<Note>, summary: Summary)

  // ----- specification: what each pass pushes for each element -------------------------

  function RowFields(streamId: Bytes, row: ServedAnchor): EnvelopeFields {
    EnvelopeFields(ENVELOPE_VERSION, streamId, row.seqNo, row.ciphertextDigest, row.prevEnvelopeDigest)
  }

  /** The error of the first of `n` served rows whose envelope cannot be rebuilt. */
  function RowError(streamId: Bytes, rows: seq<ServedAnchor>, n: nat): Option<EncodeError>
    requires n <= |rows|
  {
    if n == 0 then None
    else match RowError(streamId, rows, n - 1)
      case Some(e) => Some(e)
      case None =>
        match EncodeEnvelope(RowFields(streamId, rows[n - 1]))
        case Err(e) => Some(e)
        case Ok(_) => None
  }

  function RebuildDigest(keccak: Hash, streamId: Bytes, row: ServedAnchor): Result<Bytes, EncodeError> {
    match EncodeEnvelope(RowFields(streamId, row))
    case Err(e) => Err(e)
    case Ok(envelope) => Ok(keccak(envelope))
  }

  predicate RowInconsistent(keccak: Hash, streamId: Bytes, row: ServedAnchor) {
    RowDigest(keccak, streamId, row.seqNo, row.ciphertextDigest, row.prevEnvelopeDigest) != row.envelopeDigest
  }

  function InconsistentSeqs(keccak: Hash, streamId: Bytes, rows: seq<ServedAnchor>, n: nat): set<int>
    requires n <= |rows|
  {
    set i | 0 <= i < n && RowInconsistent(keccak, streamId, rows[i]) :: rows[i].seqNo
  }

  function EnvelopePass(keccak: Hash, streamId: Bytes): ServedAnchor -> seq<Finding> {
    (row: ServedAnchor) =>
      if RowInconsistent(keccak, streamId, row) then [Finding(ENVELOPE_MISMATCH, Some(row.seqNo))] else []
  }

  function DuplicateNotes(): ServedAnchor -> seq<Note> {
    (row: ServedAnchor) => if row.duplicateCount > 0 then [Note(DUPLICATE, Some(row.seqNo))] else []
  }

  function ServedSeqs(rows: seq<ServedAnchor>): seq<int> {
    Sort(ByIntKey((s: int) => s), Dedup(Map(ServedSeq(), rows)))
  }

  function Last(xs: seq<int>): Option<int> {
    if xs == [] then None else Some(xs[|xs| - 1])
  }

  function LastDisclosed(expected: seq<ComputedAnchor>): Option<int> {
    if expected == [] then None else Some(expected[|expected| - 1].seqNo)
  }

  function HighWater(maxServed: Option<int>, maxDisclosed: Option<int>): Option<int> {
    if maxServed.None? then maxDisclosed
    else if maxDisclosed.None? then maxServed
    else if maxServed.value > maxDisclosed.value then maxServed else maxDisclosed
  }

  function UpTo(highWater: Option<int>): seq<int> {
    if highWater.None? || highWater.value < 0 then [] else seq(highWater.value + 1, i => i)
  }

  function GapPass(disclosed: map<int, ComputedAnchor>, held: map<int, ServedAnchor>, maxServed: Option<int>)
    : int -> seq<Finding>
  {
    (s: int) =>
      if s in held then []
      else if s in disclosed || (maxServed.Some? && s < maxServed.value) then [Finding(GAP, Some(s))]
      else []
  }

  predicate Restated(held: map<int, ServedAnchor>, a: ComputedAnchor) {
    a.seqNo in held && a.ciphertextDigest != held[a.seqNo].ciphertextDigest
  }

  function AlteredSeqs(held: map<int, ServedAnchor>, expected: seq<ComputedAnchor>, n: nat): set<int>
    requires n <= |expected|
  {
    set i | 0 <= i < n && Restated(held, expected[i]) :: expected[i].seqNo
  }

  function AlteredPass(held: map<int, ServedAnchor>): ComputedAnchor -> seq<Finding> {
    (a: ComputedAnchor) => if Restated(held, a) then [Finding(ALTERED, Some(a.seqNo))] else []
  }

  function MissingPass(disclosed: map<int, ComputedAnchor>): ServedAnchor -> seq<Finding> {
    (row: ServedAnchor) => if row.seqNo in disclosed then [] else [Finding(MISSING, Some(row.seqNo))]
  }

  // ----- the served chain ---------------------------------------------------------------

  predicate Resolvable(held: map<int, ServedAnchor>, s: int) {
    s == 0 || s - 1 in held
  }

  predicate LinkDiffers(held: map<int, ServedAnchor>, s: int)
    requires s in held && Resolvable(held, s)
  {
    held[s].prevEnvelopeDigest != if s == 0 then ZERO32 else held[s - 1].envelopeDigest
  }

  /** A link counts as broken only where the row below it can be trusted: consistent and not broken itself. */
  predicate Broken(held: map<int, ServedAnchor>, inconsistent: set<int>, s: int)
    decreases if s < 0 then 0 else s + 1, 0
  {
    && s >= 0 && s in held && Resolvable(held, s) && LinkDiffers(held, s)
    && (s > 0 ==> Trusted(held, inconsistent, s - 1))
  }

  predicate Trusted(held: map<int, ServedAnchor>, inconsistent: set<int>, s: int)
    requires s >= 0
    decreases s + 1, 1
  {
    s !in inconsistent && !Broken(held, inconsistent, s)
  }

  function BreakPass(held: map<int, ServedAnchor>, inconsistent: set<int>): int -> seq<Finding> {
    (s: int) => if Broken(held, inconsistent, s) then [Finding(CHAIN_BREAK, Some(s))] else []
  }

  function LinkNotes(held: map<int, ServedAnchor>, inconsistent: set<int>): int -> seq<Note> {
    (s: int) =>
      if !Resolvable(held, s) then [Note(UNRESOLVABLE_LINK, Some(s))]
      else if s in held && LinkDiffers(held, s) && !Broken(held, inconsistent, s) then [Note(DOWNSTREAM, Some(s))]
      else []
  }

  // ----- the disclosure against the served chain ------------------------------------------

  /** Everything the last chain pass looks at. */
  datatype Sides = Sides(
    disclosed: map<int, ComputedAnchor>, held: map<int, ServedAnchor>, inconsistent: set<int>, altered: set<int>)

  predicate Agree(v: Sides, s: int) {
    s < 0 ||
    (&& s in v.disclosed && s in v.held
     && s !in v.altered && s !in v.inconsistent && !Broken(v.held, v.inconsistent, s)
     && v.disclosed[s].envelopeDigest == Some(v.held[s].envelopeDigest))
  }

  predicate PrevDiffers(v: Sides, a: ComputedAnchor) {
    && a.seqNo in v.held && a.prevEnvelopeDigest.Some?
    && a.prevEnvelopeDigest.value != v.held[a.seqNo].prevEnvelopeDigest
  }

  predicate Excused(v: Sides, s: int) {
    !Agree(v, s - 1) || Broken(v.held, v.inconsistent, s)
  }

  predicate DigestDiffers(v: Sides, a: ComputedAnchor) {
    && a.seqNo in v.held && a.prevEnvelopeDigest.Some? && !PrevDiffers(v, a)
    && a.envelopeDigest.Some? && a.seqNo !in v.altered
    && a.envelopeDigest.value != v.held[a.seqNo].envelopeDigest
  }

  function DisclosurePass(v: Sides): ComputedAnchor -> seq<Finding> {
    (a: ComputedAnchor) =>
      if PrevDiffers(v, a) && !Excused(v, a.seqNo) then [Finding(CHAIN_BREAK, Some(a.seqNo))]
      else if DigestDiffers(v, a) then [Finding(ENVELOPE_MISMATCH, Some(a.seqNo))]
      else []
  }

  function DisclosureNotes(v: Sides): ComputedAnchor -> seq<Note> {
    (a: ComputedAnchor) =>
      if a.seqNo !in v.held then []
      else if a.prevEnvelopeDigest.None? then [Note(UNRESOLVABLE_LINK, Some(a.seqNo))]
      else if PrevDiffers(v, a) && Excused(v, a.seqNo) then [Note(DOWNSTREAM, Some(a.seqNo))]
      else []
  }

  function ConflictPass(): ServedConflict -> seq<Finding> {
    (c: ServedConflict) => [Finding(CONFLICT, Some(c.seqNo))]
  }

  function MalformedNotes(): ServedMalformed -> seq<Note> {
    (m: ServedMalformed) => [Note(MALFORMED, None)]
  }

  // ----- the whole verdict ------------------------------------------------------------------

  function SidesOf(keccak: Hash, expected: seq<ComputedAnchor>, served: ServedIndex): Sides {
    var held := ByKey(ServedSeq(), served.anchors);
    Sides(ByKey(AnchorSeq(), expected), held,
          InconsistentSeqs(keccak, served.streamId, served.anchors, |served.anchors|),
          AlteredSeqs(held, expected, |expected|))
  }

  function RowCandidates(keccak: Hash, expected: seq<ComputedAnchor>, served: ServedIndex): seq<Finding> {
    var v := SidesOf(keccak, expected, served);
    var seqs := ServedSeqs(served.anchors);
    Collect(EnvelopePass(keccak, served.streamId), served.anchors)
    + Collect(GapPass(v.disclosed, v.held, Last(seqs)), UpTo(HighWater(Last(seqs), LastDisclosed(expected))))
    + Collect(AlteredPass(v.held), expected)
    + Collect(MissingPass(v.disclosed), served.anchors)
    + Collect(BreakPass(v.held, v.inconsistent), seqs)
  }

  function CountCandidates(expected: seq<ComputedAnchor>, served: ServedIndex): seq<Finding> {
    if |expected| != |served.anchors| then [Finding(COUNT_MISMATCH, None)] else []
  }

  /** Every `addFinding` call, in order. */
  function Candidates(keccak: Hash, expected: seq<ComputedAnchor>, served: ServedIndex): seq<Finding> {
    RowCandidates(keccak, expected, served)
    + Collect(DisclosurePass(SidesOf(keccak, expected, served)), expected)
    + Collect(ConflictPass(), served.conflicts)
    + CountCandidates(expected, served)
  }

  function Notes(keccak: Hash, expected: seq<ComputedAnchor>, served: ServedIndex): seq<Note> {
    var v := SidesOf(keccak, expected, served);
    Collect(DuplicateNotes(), served.anchors)
    + Collect(LinkNotes(v.held, v.inconsistent), ServedSeqs(served.anchors))
    + Collect(DisclosureNotes(v), expected)
    + Collect(MalformedNotes(), served.malformed)
  }

  function LowestExit(findings: seq<Finding>, n: nat): int
    requires n <= |findings|
  {
    if n == 0 then MAX_SAFE_INTEGER else Min(LowestExit(findings, n - 1), ExitFor(findings[n - 1].code))
  }

  function Min(a: int, b: int): int { if a <= b then a else b }

  function DuplicateTotal(rows: seq<ServedAnchor>, n: nat): int
    requires n <= |rows|
  {
    if n == 0 then 0 else DuplicateTotal(rows, n - 1) + rows[n - 1].duplicateCount
  }

  function IsResolvable(held: map<int, ServedAnchor>): int -> bool {
    (s: int) => Resolvable(held, s)
  }

  function SummaryOf(keccak: Hash, expected: seq<ComputedAnchor>, served: ServedIndex): Summary {
    var seqs := ServedSeqs(served.anchors);
    var checked := CountTo(IsResolvable(ByKey(ServedSeq(), served.anchors)), seqs, |seqs|);
    Summary(|expected|, |served.anchors|, DuplicateTotal(served.anchors, |served.anchors|),
            |served.conflicts|, |served.malformed|, checked, |seqs| - checked)
  }

  function VerdictOf(keccak: Hash, expected: seq<ComputedAnchor>, served: ServedIndex): Verdict {
    var findings := Dedup(Candidates(keccak, expected, served));
    Verdict(findings == [], if findings == [] then 0 else LowestExit(findings, |findings|), findings,
            Notes(keccak, expected, served), SummaryOf(keccak, expected, served))
  }

  function Compare(keccak: Hash, expected: seq<ComputedAnchor>, served: ServedIndex): Result<Verdict, EncodeError> {
    match RowError(served.streamId, served.anchors, |served.anchors|)
    case Some(e) => Err(e)
    case None => Ok(VerdictOf(keccak, expected, served))
  }

  // ----- the program ------------------------------------------------------------------------

  /** `findings` and `seen` after the calls `calls` of `addFinding`. */
  ghost predicate Recorded(findings: seq<Finding>, seen: set<Finding>, calls: seq<Finding>) {
    findings == Dedup(calls) && seen == Elements(findings)
  }

  method AddFinding(findings: seq<Finding>, seen: set<Finding>, f: Finding, ghost calls: seq<Finding>)
    returns (findings': seq<Finding>, seen': set<Finding>)
    requires Recorded(findings, seen, calls)
    ensures Recorded(findings', seen', calls + [f])
  {
    findings', seen' := findings, seen;
    DedupStep(calls, f);
    if f in seen { return; }
    seen' := seen + {f};
    findings' := findings + [f];
  }

  method CheckRows(keccak: Hash, served: ServedIndex)
    returns (error: Option<EncodeError>, findings: seq<Finding>, seen: set<Finding>, notes: seq<Note>, inconsistent: set<int>)
    ensures error == RowError(served.streamId, served.anchors, |served.anchors|)
    ensures error.None? ==> Recorded(findings, seen, Collect(EnvelopePass(keccak, served.streamId), served.anchors))
    ensures error.None? ==> notes == Collect(DuplicateNotes(), served.anchors)
    ensures error.None? ==> inconsistent == InconsistentSeqs(keccak, served.streamId, served.anchors, |served.anchors|)
  {
    var rows := served.anchors;
    ghost var pass := EnvelopePass(keccak, served.streamId);
    findings, seen, notes, inconsistent := [], {}, [], {};
    for i := 0 to |rows|
      invariant RowError(served.streamId, rows, i) == None
      invariant Recorded(findings, seen, CollectTo(pass, rows, i))
      invariant notes == CollectTo(DuplicateNotes(), rows, i)
      invariant inconsistent == InconsistentSeqs(keccak, served.streamId, rows, i)
    {
      var row := rows[i];
      RowStep(keccak, served.streamId, rows, i);
      var rebuilt := RebuildDigest(keccak, served.streamId, row);
      if rebuilt.Err? {
        RowErrorStays(served.streamId, rows, i + 1, |rows|);
        return Some(rebuilt.error), findings, seen, notes, inconsistent;
      }
      if rebuilt.value != row.envelopeDigest {
        inconsistent := inconsistent + {row.seqNo};
        findings, seen := AddFinding(findings, seen, Finding(ENVELOPE_MISMATCH, Some(row.seqNo)), CollectTo(pass, rows, i));
      }
      if row.duplicateCount > 0 {
        notes := notes + [Note(DUPLICATE, Some(row.seqNo))];
      }
    }
    error := None;
  }

  lemma {:induction false} RowStep(keccak: Hash, streamId: Bytes, rows: seq<ServedAnchor>, i: nat)
    requires i < |rows|
    ensures RowError(streamId, rows, i).None? ==>
              RowError(streamId, rows, i + 1) ==
                (match RebuildDigest(keccak, streamId, rows[i]) case Err(e) => Some(e) case Ok(_) => None)
    ensures RebuildDigest(keccak, streamId, rows[i]).Ok? ==>
              (RowInconsistent(keccak, streamId, rows[i]) <==>
                 RebuildDigest(keccak, streamId, rows[i]).value != rows[i].envelopeDigest)
    ensures var before := CollectTo(EnvelopePass(keccak, streamId), rows, i);
            CollectTo(EnvelopePass(keccak, streamId), rows, i + 1) ==
              if RowInconsistent(keccak, streamId, rows[i]) then before + [Finding(ENVELOPE_MISMATCH, Some(rows[i].seqNo))]
              else before
    ensures var before := CollectTo(DuplicateNotes(), rows, i);
            CollectTo(DuplicateNotes(), rows, i + 1) ==
              if rows[i].duplicateCount > 0 then before + [Note(DUPLICATE, Some(rows[i].seqNo))] else before
    ensures var before := InconsistentSeqs(keccak, streamId, rows, i);
            InconsistentSeqs(keccak, streamId, rows, i + 1) ==
              if RowInconsistent(keccak, streamId, rows[i]) then before + {rows[i].seqNo} else before
  {
    assert CollectTo(EnvelopePass(keccak, streamId), rows, i + 1) ==
           CollectTo(EnvelopePass(keccak, streamId), rows, i) + EnvelopePass(keccak, streamId)(rows[i]);
    assert CollectTo(DuplicateNotes(), rows, i + 1) == CollectTo(DuplicateNotes(), rows, i) + DuplicateNotes()(rows[i]);
  }

  lemma {:induction false} RowErrorStays(streamId: Bytes, rows: seq<ServedAnchor>, i: nat, n: nat)
    requires i <= n <= |rows| && RowError(streamId, rows, i).Some?
    ensures RowError(streamId, rows, n) == RowError(streamId, rows, i)
  {
    if i < n { RowErrorStays(streamId, rows, i, n - 1); }
  }

  method MapBySeq<T>(key: T -> int, xs: seq<T>) returns (m: map<int, T>)
    ensures m == ByKey(key, xs)
  {
    m := map[];
    for i := 0 to |xs|
      invariant m == ByKeyTo(key, xs, i)
    {
      m := m[key(xs[i]) := xs[i]];
    }
  }

  method CheckGaps(disclosed: map<int, ComputedAnchor>, held: map<int, ServedAnchor>, maxServed: Option<int>,
                   maxDisclosed: Option<int>, findings0: seq<Finding>, seen0: set<Finding>, ghost calls: seq<Finding>)
    returns (findings: seq<Finding>, seen: set<Finding>)
    requires Recorded(findings0, seen0, calls)
    ensures Recorded(findings, seen,
                     calls + Collect(GapPass(disclosed, held, maxServed), UpTo(HighWater(maxServed, maxDisclosed))))
  {
    findings, seen := findings0, seen0;
    ghost var pass, positions := GapPass(disclosed, held, maxServed), UpTo(HighWater(maxServed, maxDisclosed));
    AfterEnds(calls, pass, positions);
    var highWater := if maxServed.None? then maxDisclosed
      else if maxDisclosed.None? then maxServed
      else if maxServed.value > maxDisclosed.value then maxServed else maxDisclosed;
    if highWater.Some? {
      var s := 0;
      while s <= highWater.value
        invariant 0 <= s <= |positions|
        invariant s < |positions| <==> s <= highWater.value
        invariant Recorded(findings, seen, After(calls, pass, positions, s))
      {
        AfterStep(calls, pass, positions, s);
        if s !in held {
          if s in disclosed {
            findings, seen := AddFinding(findings, seen, Finding(GAP, Some(s)), After(calls, pass, positions, s));
          } else if maxServed.Some? && s < maxServed.value {
            findings, seen := AddFinding(findings, seen, Finding(GAP, Some(s)), After(calls, pass, positions, s));
          }
        }
        s := s + 1;
      }
    }
  }

  method CheckAltered(held: map<int, ServedAnchor>, expected: seq<ComputedAnchor>,
                      findings0: seq<Finding>, seen0: set<Finding>, ghost calls: seq<Finding>)
    returns (findings: seq<Finding>, seen: set<Finding>, altered: set<int>)
    requires Recorded(findings0, seen0, calls)
    ensures Recorded(findings, seen, calls + Collect(AlteredPass(held), expected))
    ensures altered == AlteredSeqs(held, expected, |expected|)
  {
    findings, seen, altered := findings0, seen0, {};
    AfterEnds(calls, AlteredPass(held), expected);
    for i := 0 to |expected|
      invariant Recorded(findings, seen, After(calls, AlteredPass(held), expected, i))
      invariant altered == AlteredSeqs(held, expected, i)
    {
      var anchor := expected[i];
      AfterStep(calls, AlteredPass(held), expected, i);
      AlteredStep(held, expected, i);
      if anchor.seqNo !in held { continue; }
      var servedAnchor := held[anchor.seqNo];
      if anchor.ciphertextDigest != servedAnchor.ciphertextDigest {
        altered := altered + {anchor.seqNo};
        findings, seen := AddFinding(findings, seen, Finding(ALTERED, Some(anchor.seqNo)),
                                     After(calls, AlteredPass(held), expected, i));
      }
    }
  }

  lemma {:induction false} AlteredStep(held: map<int, ServedAnchor>, expected: seq<ComputedAnchor>, i: nat)
    requires i < |expected|
    ensures AlteredSeqs(held, expected, i + 1) ==
              if Restated(held, expected[i]) then AlteredSeqs(held, expected, i) + {expected[i].seqNo}
              else AlteredSeqs(held, expected, i)
  {}

  method CheckMissing(disclosed: map<int, ComputedAnchor>, rows: seq<ServedAnchor>,
                      findings0: seq<Finding>, seen0: set<Finding>, ghost calls: seq<Finding>)
    returns (findings: seq<Finding>, seen: set<Finding>)
    requires Recorded(findings0, seen0, calls)
    ensures Recorded(findings, seen, calls + Collect(MissingPass(disclosed), rows))
  {
    findings, seen := findings0, seen0;
    AfterEnds(calls, MissingPass(disclosed), rows);
    for i := 0 to |rows|
      invariant Recorded(findings, seen, After(calls, MissingPass(disclosed), rows, i))
    {
      var anchor := rows[i];
      AfterStep(calls, MissingPass(disclosed), rows, i);
      if anchor.seqNo !in disclosed {
        findings, seen := AddFinding(findings, seen, Finding(MISSING, Some(anchor.seqNo)),
                                     After(calls, MissingPass(disclosed), rows, i));
      }
    }
  }

  ghost function BrokenAmong(held: map<int, ServedAnchor>, inconsistent: set<int>, seqs: seq<int>, n: nat): set<int>
    requires n <= |seqs|
  {
    set i | 0 <= i < n && Broken(held, inconsistent, seqs[i]) :: seqs[i]
  }

  /** The ascending walk over exactly the served positions. */
  ghost predicate Walk(held: map<int, ServedAnchor>, seqs: seq<int>) {
    Ascending(seqs) && Elements(seqs) == held.Keys && forall s :: s in seqs ==> s >= 0
  }

  method CheckServedChain(held: map<int, ServedAnchor>, inconsistent: set<int>, seqs: seq<int>, notes0: seq<Note>,
                          findings0: seq<Finding>, seen0: set<Finding>, ghost calls: seq<Finding>)
    returns (findings: seq<Finding>, seen: set<Finding>, notes: seq<Note>, broken: set<int>, checked: nat, unresolvable: nat)
    requires Recorded(findings0, seen0, calls)
    requires Walk(held, seqs)
    ensures Recorded(findings, seen, calls + Collect(BreakPass(held, inconsistent), seqs))
    ensures notes == notes0 + Collect(LinkNotes(held, inconsistent), seqs)
    ensures broken == BrokenAmong(held, inconsistent, seqs, |seqs|)
    ensures checked == CountTo(IsResolvable(held), seqs, |seqs|) && checked + unresolvable == |seqs|
  {
    findings, seen, notes, broken, checked, unresolvable := findings0, seen0, notes0, {}, 0, 0;
    AfterEnds(calls, BreakPass(held, inconsistent), seqs);
    AfterEnds(notes0, LinkNotes(held, inconsistent), seqs);
    for i := 0 to |seqs|
      invariant Recorded(findings, seen, After(calls, BreakPass(held, inconsistent), seqs, i))
      invariant notes == After(notes0, LinkNotes(held, inconsistent), seqs, i)
      invariant broken == BrokenAmong(held, inconsistent, seqs, i)
      invariant checked == CountTo(IsResolvable(held), seqs, i) && checked + unresolvable == i
    {
      findings, seen, notes, broken, checked, unresolvable :=
        WalkOne(held, inconsistent, seqs, i, findings, seen, notes, broken, checked, unresolvable, calls, notes0);
    }
  }

  method WalkOne(held: map<int, ServedAnchor>, inconsistent: set<int>, seqs: seq<int>, i: nat,
                 findings0: seq<Finding>, seen0: set<Finding>, notes0: seq<Note>, broken0: set<int>,
                 checked0: nat, unresolvable0: nat, ghost calls: seq<Finding>, ghost before: seq<Note>)
    returns (findings: seq<Finding>, seen: set<Finding>, notes: seq<Note>, broken: set<int>, checked: nat, unresolvable: nat)
    requires Walk(held, seqs) && i < |seqs|
    requires Recorded(findings0, seen0, After(calls, BreakPass(held, inconsistent), seqs, i))
    requires notes0 == After(before, LinkNotes(held, inconsistent), seqs, i)
    requires broken0 == BrokenAmong(held, inconsistent, seqs, i)
    requires checked0 == CountTo(IsResolvable(held), seqs, i)
    ensures Recorded(findings, seen, After(calls, BreakPass(held, inconsistent), seqs, i + 1))
    ensures notes == After(before, LinkNotes(held, inconsistent), seqs, i + 1)
    ensures broken == BrokenAmong(held, inconsistent, seqs, i + 1)
    ensures checked == CountTo(IsResolvable(held), seqs, i + 1)
    ensures checked + unresolvable == checked0 + unresolvable0 + 1
  {
    findings, seen, notes, broken, checked, unresolvable := findings0, seen0, notes0, broken0, checked0, unresolvable0;
    var s := seqs[i];
    WalkStep(held, inconsistent, seqs, i);
    AfterStep(calls, BreakPass(held, inconsistent), seqs, i);
    AfterStep(before, LinkNotes(held, inconsistent), seqs, i);
    var link := CheckLink(held, inconsistent, broken, s);
    if link.Unresolvable? {
      unresolvable := unresolvable + 1;
      notes := notes + [Note(UNRESOLVABLE_LINK, Some(s))];
      return;
    }
    checked := checked + 1;
    if link.Downstream? {
      notes := notes + [Note(DOWNSTREAM, Some(s))];
    } else if link.BreaksHere? {
      broken := broken + {s};
      findings, seen := AddFinding(findings, seen, Finding(CHAIN_BREAK, Some(s)),
                                   After(calls, BreakPass(held, inconsistent), seqs, i));
    }
  }

  datatype Link = Unresolvable | Holds | Downstream | BreaksHere

  /** The four ways one served link can come out, given the breaks recorded below it. */
  method CheckLink(held: map<int, ServedAnchor>, inconsistent: set<int>, broken: set<int>, s: int) returns (link: Link)
    requires s in held && s >= 0
    requires s > 0 ==> (s - 1 in broken <==> Broken(held, inconsistent, s - 1))
    ensures link.Unresolvable? <==> !Resolvable(held, s)
    ensures link.BreaksHere? <==> Broken(held, inconsistent, s)
    ensures link.Downstream? <==> Resolvable(held, s) && LinkDiffers(held, s) && !Broken(held, inconsistent, s)
  {
    var predecessorDigest :=
      if s == 0 then Some(ZERO32) else if s - 1 in held then Some(held[s - 1].envelopeDigest) else None;
    if predecessorDigest.None? { return Unresolvable; }
    if held[s].prevEnvelopeDigest != predecessorDigest.value {
      if s > 0 && !(s - 1 !in inconsistent && s - 1 !in broken) { return Downstream; }
      return BreaksHere;
    }
    return Holds;
  }

  lemma {:induction false} WalkStep(held: map<int, ServedAnchor>, inconsistent: set<int>, seqs: seq<int>, i: nat)
    requires i < |seqs| && Walk(held, seqs)
    ensures seqs[i] in held && seqs[i] >= 0
    ensures BrokenAmong(held, inconsistent, seqs, i + 1) ==
              if Broken(held, inconsistent, seqs[i]) then BrokenAmong(held, inconsistent, seqs, i) + {seqs[i]}
              else BrokenAmong(held, inconsistent, seqs, i)
    ensures CountTo(IsResolvable(held), seqs, i + 1) ==
              CountTo(IsResolvable(held), seqs, i) + (if Resolvable(held, seqs[i]) then 1 else 0)
    ensures seqs[i] > 0 ==>
              (seqs[i] - 1 in BrokenAmong(held, inconsistent, seqs, i) <==> Broken(held, inconsistent, seqs[i] - 1))
  {
    assert seqs[i] in Elements(seqs);
    var below := seqs[i] - 1;
    if below in held {
      assert below in Elements(seqs);
      var k :| 0 <= k < |seqs| && seqs[k] == below;
    }
  }

  method CheckDisclosedChain(v: Sides, broken: set<int>, expected: seq<ComputedAnchor>, notes0: seq<Note>,
                             findings0: seq<Finding>, seen0: set<Finding>, ghost calls: seq<Finding>)
    returns (findings: seq<Finding>, seen: set<Finding>, notes: seq<Note>)
    requires Recorded(findings0, seen0, calls)
    requires forall s :: s in broken <==> Broken(v.held, v.inconsistent, s)
    ensures Recorded(findings, seen, calls + Collect(DisclosurePass(v), expected))
    ensures notes == notes0 + Collect(DisclosureNotes(v), expected)
  {
    findings, seen, notes := findings0, seen0, notes0;
    AfterEnds(calls, DisclosurePass(v), expected);
    AfterEnds(notes0, DisclosureNotes(v), expected);
    for i := 0 to |expected|
      invariant Recorded(findings, seen, After(calls, DisclosurePass(v), expected, i))
      invariant notes == After(notes0, DisclosureNotes(v), expected, i)
    {
      var anchor := expected[i];
      AfterStep(calls, DisclosurePass(v), expected, i);
      AfterStep(notes0, DisclosureNotes(v), expected, i);
      if anchor.seqNo !in v.held { continue; }
      var servedAnchor := v.held[anchor.seqNo];
      if anchor.prevEnvelopeDigest.None? {
        notes := notes + [Note(UNRESOLVABLE_LINK, Some(anchor.seqNo))];
        continue;
      }
      if anchor.prevEnvelopeDigest.value != servedAnchor.prevEnvelopeDigest {
        var agree := BothSidesAgree(v, broken, anchor.seqNo - 1);
        if !agree || anchor.seqNo in broken {
          notes := notes + [Note(DOWNSTREAM, Some(anchor.seqNo))];
        } else {
          findings, seen := AddFinding(findings, seen, Finding(CHAIN_BREAK, Some(anchor.seqNo)),
                                       After(calls, DisclosurePass(v), expected, i));
        }
      } else if && anchor.envelopeDigest.Some? && anchor.seqNo !in v.altered
                && anchor.envelopeDigest.value != servedAnchor.envelopeDigest {
        findings, seen := AddFinding(findings, seen, Finding(ENVELOPE_MISMATCH, Some(anchor.seqNo)),
                                     After(calls, DisclosurePass(v), expected, i));
      }
    }
  }

  method BothSidesAgree(v: Sides, broken: set<int>, s: int) returns (agree: bool)
    requires forall s :: s in broken <==> Broken(v.held, v.inconsistent, s)
    ensures agree <==> Agree(v, s)
  {
    if s < 0 { return true; }
    if s !in v.disclosed || s !in v.held { return false; }
    if s in v.altered || s in v.inconsistent || s in broken { return false; }
    if v.disclosed[s].envelopeDigest.None? { return false; }
    return v.disclosed[s].envelopeDigest.value == v.held[s].envelopeDigest;
  }

  method CheckConflicts(conflicts: seq<ServedConflict>, findings0: seq<Finding>, seen0: set<Finding>, ghost calls: seq<Finding>)
    returns (findings: seq<Finding>, seen: set<Finding>)
    requires Recorded(findings0, seen0, calls)
    ensures Recorded(findings, seen, calls + Collect(ConflictPass(), conflicts))
  {
    findings, seen := findings0, seen0;
    AfterEnds(calls, ConflictPass(), conflicts);
    for i := 0 to |conflicts|
      invariant Recorded(findings, seen, After(calls, ConflictPass(), conflicts, i))
    {
      AfterStep(calls, ConflictPass(), conflicts, i);
      findings, seen := AddFinding(findings, seen, Finding(CONFLICT, Some(conflicts[i].seqNo)),
                                   After(calls, ConflictPass(), conflicts, i));
    }
  }

  method NoteMalformed(malformed: seq<ServedMalformed>, notes0: seq<Note>) returns (notes: seq<Note>)
    ensures notes == notes0 + Collect(MalformedNotes(), malformed)
  {
    notes := notes0;
    AfterEnds(notes0, MalformedNotes(), malformed);
    for i := 0 to |malformed|
      invariant notes == After(notes0, MalformedNotes(), malformed, i)
    {
      AfterStep(notes0, MalformedNotes(), malformed, i);
      notes := notes + [Note(MALFORMED, None)];
    }
  }

  method Summarise(findings: seq<Finding>, rows: seq<ServedAnchor>) returns (exitCode: int, duplicates: int)
    ensures exitCode == LowestExit(findings, |findings|)
    ensures duplicates == DuplicateTotal(rows, |rows|)
  {
    exitCode, duplicates := MAX_SAFE_INTEGER, 0;
    for i := 0 to |findings|
      invariant exitCode == LowestExit(findings, i)
    {
      exitCode := Min(exitCode, ExitFor(findings[i].code));
    }
    for i := 0 to |rows|
      invariant duplicates == DuplicateTotal(rows, i)
    {
      duplicates := duplicates + rows[i].duplicateCount;
    }
  }

  /** Rows whose envelopes could all be rebuilt have positions from 0 up, and the sorted positions are the map's keys. */
  lemma {:induction false} ServedWalk(streamId: Bytes, rows: seq<ServedAnchor>)
    requires RowError(streamId, rows, |rows|).None?
    ensures Walk(ByKey(ServedSeq(), rows), ServedSeqs(rows))
    ensures forall i :: 0 <= i < |rows| ==> Encodable(RowFields(streamId, rows[i]))
  {
    forall i | 0 <= i < |rows| ensures Encodable(RowFields(streamId, rows[i])) {
      RowsEncodable(streamId, rows, |rows|, i);
    }
    ServedSeqsSorted(rows);
    var held, seqs := ByKey(ServedSeq(), rows), ServedSeqs(rows);
    ByKeyMember(ServedSeq(), rows);
    forall s ensures s in seqs <==> s in held {
      if s in seqs { var i :| 0 <= i < |rows| && ServedSeq()(rows[i]) == s; assert rows[i] in rows; }
      if s in held { var i :| 0 <= i < |rows| && rows[i] == held[s]; assert ServedSeq()(rows[i]) == s; }
    }
    forall s | s in seqs ensures s >= 0 {
      var i :| 0 <= i < |rows| && ServedSeq()(rows[i]) == s;
      assert Encodable(RowFields(streamId, rows[i]));
    }
  }

  lemma {:induction false} RowsEncodable(streamId: Bytes, rows: seq<ServedAnchor>, n: nat, i: nat)
    requires i < n <= |rows| && RowError(streamId, rows, n).None?
    ensures Encodable(RowFields(streamId, rows[i]))
  {
    if i < n - 1 { RowsEncodable(streamId, rows, n - 1, i); }
  }

  lemma {:induction false} ServedSeqsSorted(rows: seq<ServedAnchor>)
    ensures Ascending(ServedSeqs(rows))
    ensures forall s :: s in ServedSeqs(rows) <==> exists i :: 0 <= i < |rows| && ServedSeq()(rows[i]) == s
  {
    var all := Map(ServedSeq(), rows);
    var distinct, seqs := Dedup(all), ServedSeqs(rows);
    var le := ByIntKey((s: int) => s);
    DedupMember(all);
    IntKeyOrders((s: int) => s);
    SortSorts(le, distinct);
    SortKeepsDistinct(distinct, seqs);
    forall i, j | 0 <= i < j < |seqs| ensures seqs[i] < seqs[j] { assert le(seqs[i], seqs[j]); }
    forall s ensures s in seqs <==> exists i :: 0 <= i < |rows| && ServedSeq()(rows[i]) == s {
      if s in seqs { var i :| 0 <= i < |all| && all[i] == s; assert ServedSeq()(rows[i]) == s; }
      if i :| 0 <= i < |rows| && ServedSeq()(rows[i]) == s { assert all[i] == s; }
    }
  }

  lemma SortKeepsDistinct(xs: seq<int>, ys: seq<int>)
    requires NoDup(xs) && |xs| == |ys| && forall x :: x in ys <==> x in xs
    ensures NoDup(ys)
  {
    assert Elements(xs) == Elements(ys);
    DistinctCount(xs);
    DistinctCount(ys);
  }

  /** `compareDisclosureToIndex`. */
  method CompareDisclosureToIndex(keccak: Hash, expected: seq<ComputedAnchor>, served: ServedIndex)
    returns (r: Result<Verdict, EncodeError>)
    ensures r == Compare(keccak, expected, served)
  {
    hide ByKey, Candidates, Notes, Dedup, RowError, ServedSeqs;
    var error, findings, notes, checked, unresolvable := RunPasses(keccak, expected, served);
    if error.Some? { return Err(error.value); }
    var exitCode, duplicates := Summarise(findings, served.anchors);
    var summary := Summary(|expected|, |served.anchors|, duplicates, |served.conflicts|, |served.malformed|,
                           checked, unresolvable);
    assert summary == SummaryOf(keccak, expected, served);
    return Ok(Verdict(findings == [], if findings == [] then 0 else exitCode, findings, notes, summary));
  }

  method RunPasses(keccak: Hash, expected: seq<ComputedAnchor>, served: ServedIndex)
    returns (error: Option<EncodeError>, findings: seq<Finding>, notes: seq<Note>, checked: nat, unresolvable: nat)
    ensures error == RowError(served.streamId, served.anchors, |served.anchors|)
    ensures error.None? ==> findings == Dedup(Candidates(keccak, expected, served))
    ensures error.None? ==> notes == Notes(keccak, expected, served)
    ensures error.None? ==> var seqs := ServedSeqs(served.anchors);
              && checked == CountTo(IsResolvable(ByKey(ServedSeq(), served.anchors)), seqs, |seqs|)
              && checked + unresolvable == |seqs|
  {
    var disclosed := MapBySeq(AnchorSeq(), expected);
    var held := MapBySeq(ServedSeq(), served.anchors);
    checked, unresolvable := 0, 0;
    var seen, inconsistent;
    error, findings, seen, notes, inconsistent := CheckRows(keccak, served);
    if error.Some? { return; }
    ServedWalk(served.streamId, served.anchors);
    ghost var rowCalls := Collect(EnvelopePass(keccak, served.streamId), served.anchors);
    var seqs := ServedSeqs(served.anchors);
    ghost var calls;
    var altered;
    findings, seen, altered, calls := RunRowPasses(disclosed, held, seqs, expected, served.anchors, findings, seen, rowCalls);

    var broken;
    findings, seen, notes, broken, checked, unresolvable :=
      CheckServedChain(held, inconsistent, seqs, notes, findings, seen, calls);
    BrokenIsWalked(held, inconsistent, seqs);
    calls := calls + Collect(BreakPass(held, inconsistent), seqs);
    var v := Sides(disclosed, held, inconsistent, altered);
    assert v == SidesOf(keccak, expected, served) && calls == RowCandidates(keccak, expected, served);
    findings, seen, notes := CheckDisclosedChain(v, broken, expected, notes, findings, seen, calls);
    calls := calls + Collect(DisclosurePass(v), expected);
    findings, notes := RunClosingPasses(expected, served, notes, findings, seen, calls);
  }

  method RunRowPasses(disclosed: map<int, ComputedAnchor>, held: map<int, ServedAnchor>, seqs: seq<int>,
                      expected: seq<ComputedAnchor>, rows: seq<ServedAnchor>,
                      findings0: seq<Finding>, seen0: set<Finding>, ghost calls0: seq<Finding>)
    returns (findings: seq<Finding>, seen: set<Finding>, altered: set<int>, ghost calls: seq<Finding>)
    requires Recorded(findings0, seen0, calls0)
    ensures Recorded(findings, seen, calls)
    ensures altered == AlteredSeqs(held, expected, |expected|)
    ensures calls == calls0
              + Collect(GapPass(disclosed, held, Last(seqs)), UpTo(HighWater(Last(seqs), LastDisclosed(expected))))
              + Collect(AlteredPass(held), expected)
              + Collect(MissingPass(disclosed), rows)
  {
    calls := calls0;
    findings, seen := CheckGaps(disclosed, held, Last(seqs), LastDisclosed(expected), findings0, seen0, calls);
    calls := calls + Collect(GapPass(disclosed, held, Last(seqs)), UpTo(HighWater(Last(seqs), LastDisclosed(expected))));
    findings, seen, altered := CheckAltered(held, expected, findings, seen, calls);
    calls := calls + Collect(AlteredPass(held), expected);
    findings, seen := CheckMissing(disclosed, rows, findings, seen, calls);
    calls := calls + Collect(MissingPass(disclosed), rows);
  }

  method RunClosingPasses(expected: seq<ComputedAnchor>, served: ServedIndex, notes0: seq<Note>,
                          findings0: seq<Finding>, seen0: set<Finding>, ghost calls: seq<Finding>)
    returns (findings: seq<Finding>, notes: seq<Note>)
    requires Recorded(findings0, seen0, calls)
    ensures findings == Dedup(calls + Collect(ConflictPass(), served.conflicts) + CountCandidates(expected, served))
    ensures notes == notes0 + Collect(MalformedNotes(), served.malformed)
  {
    var seen;
    findings, seen := CheckConflicts(served.conflicts, findings0, seen0, calls);
    ghost var calls' := calls + Collect(ConflictPass(), served.conflicts);
    notes := NoteMalformed(served.malformed, notes0);
    assert calls' + [] == calls';
    if |expected| != |served.anchors| {
      findings, seen := AddFinding(findings, seen, Finding(COUNT_MISMATCH, None), calls');
    }
  }

  lemma BrokenIsWalked(held: map<int, ServedAnchor>, inconsistent: set<int>, seqs: seq<int>)
    requires Walk(held, seqs)
    ensures forall s :: s in BrokenAmong(held, inconsistent, seqs, |seqs|) <==> Broken(held, inconsistent, s)
  {
    forall s | Broken(held, inconsistent, s) ensures s in BrokenAmong(held, inconsistent, seqs, |seqs|) {
      assert s in Elements(seqs);
    }
  }
}
