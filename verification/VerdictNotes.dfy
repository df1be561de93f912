/** The rest of a verdict: its notes, its summary, and the order of its findings. */
module VerdictNotes {
  import opened Basics
  import opened ByteCodec
  import opened Envelope
  import opened AnchorStream
  import opened ServedIndexes
  import opened Verdicts
  import opened VerdictMeaning

  // ----- notes -----------------------------------------------------------------------------

  ghost predicate ServedAt(served: ServedIndex, s: int) {
    exists i :: 0 <= i < |served.anchors| && served.anchors[i].seqNo == s
  }

  /** The served link at `s` has nothing below it to be checked against. */
  ghost predicate Dangles(served: ServedIndex, s: int) {
    ServedAt(served, s) && s != 0 && !ServedAt(served, s - 1)
  }

  /** Some disclosed anchor at a served position does not know its link. */
  ghost predicate LinkOmitted(expected: seq<ComputedAnchor>, served: ServedIndex, s: int) {
    ServedAt(served, s) && exists i :: 0 <= i < |expected| && expected[i].seqNo == s && expected[i].prevEnvelopeDigest.None?
  }

  /** The served link at `s` differs from the digest served below, and the row below is flagged itself: its fields do not
      hash to its digest, or its own link is broken. */
  ghost predicate FollowsServed(v: Sides, s: int) {
    && s > 0 && s in v.held && s - 1 in v.held
    && v.held[s].prevEnvelopeDigest != v.held[s - 1].envelopeDigest
    && (s - 1 in v.inconsistent || Broken(v.held, v.inconsistent, s - 1))
  }

  /** A computed link at `s` differs from the served one, where the two sides disagree below or the served link is broken. */
  ghost predicate FollowsDisclosed(v: Sides, expected: seq<ComputedAnchor>, s: int) {
    && s in v.held && Excused(v, s)
    && exists i :: 0 <= i < |expected| && expected[i].seqNo == s && expected[i].prevEnvelopeDigest.Some?
                   && expected[i].prevEnvelopeDigest.value != v.held[s].prevEnvelopeDigest
  }

  /** When `n` is noted. */
  ghost predicate Noted(keccak: Hash, expected: seq<ComputedAnchor>, served: ServedIndex, n: Note) {
    match n
    case Note(DUPLICATE, Some(s)) =>
      exists i :: 0 <= i < |served.anchors| && served.anchors[i].seqNo == s && served.anchors[i].duplicateCount > 0
    case Note(UNRESOLVABLE_LINK, Some(s)) => Dangles(served, s) || LinkOmitted(expected, served, s)
    case Note(DOWNSTREAM, Some(s)) =>
      var v := SidesOf(keccak, expected, served);
      FollowsServed(v, s) || FollowsDisclosed(v, expected, s)
    case Note(MALFORMED, None) => served.malformed != []
    case _ => false
  }

  lemma {:induction false} HeldIsServed(served: ServedIndex, s: int)
    ensures s in ByKey(ServedSeq(), served.anchors) <==> ServedAt(served, s)
  {
    HeldRows(served.anchors);
  }

  lemma {:induction false} LinkNoteMeaning(v: Sides, served: ServedIndex, n: Note)
    requires v.held == ByKey(ServedSeq(), served.anchors)
    requires forall s :: s in v.held ==> s >= 0
    ensures n in Collect(LinkNotes(v.held, v.inconsistent), ServedSeqs(served.anchors)) <==>
              n.seqNo.Some? && ((n.code == UNRESOLVABLE_LINK && Dangles(served, n.seqNo.value))
                                || (n.code == DOWNSTREAM && FollowsServed(v, n.seqNo.value)))
  {
    hide ByKey, ServedSeqs;
    var seqs := ServedSeqs(served.anchors);
    CollectMember(LinkNotes(v.held, v.inconsistent), seqs, n);
    HeldRows(served.anchors);
    if n.seqNo.Some? {
      HeldIsServed(served, n.seqNo.value);
      HeldIsServed(served, n.seqNo.value - 1);
      LinkNoteAt(v, n.seqNo.value);
    }
  }

  /** What the served-chain pass notes at a held position. */
  lemma {:induction false} LinkNoteAt(v: Sides, s: int)
    requires s in v.held ==> s >= 0
    ensures s in v.held ==>
              LinkNotes(v.held, v.inconsistent)(s) ==
                if s != 0 && s - 1 !in v.held then [Note(UNRESOLVABLE_LINK, Some(s))]
                else if FollowsServed(v, s) then [Note(DOWNSTREAM, Some(s))] else []
    ensures FollowsServed(v, s) ==> s in v.held && s - 1 in v.held
  {
    if s in v.held && Resolvable(v.held, s) {
      assert Broken(v.held, v.inconsistent, s) <==>
             LinkDiffers(v.held, s) && (s > 0 ==> Trusted(v.held, v.inconsistent, s - 1));
      if s > 0 { assert Trusted(v.held, v.inconsistent, s - 1) <==> s - 1 !in v.inconsistent && !Broken(v.held, v.inconsistent, s - 1); }
    }
  }

  lemma {:induction false} DisclosureNoteMeaning(v: Sides, expected: seq<ComputedAnchor>, served: ServedIndex, n: Note)
    requires v.held == ByKey(ServedSeq(), served.anchors)
    ensures n in Collect(DisclosureNotes(v), expected) <==>
              n.seqNo.Some? && ((n.code == UNRESOLVABLE_LINK && LinkOmitted(expected, served, n.seqNo.value))
                                || (n.code == DOWNSTREAM && FollowsDisclosed(v, expected, n.seqNo.value)))
  {
    hide ByKey, Excused;
    CollectMember(DisclosureNotes(v), expected, n);
    if n.seqNo.Some? { HeldIsServed(served, n.seqNo.value); }
  }

  lemma {:induction false} SimpleNoteMeaning(served: ServedIndex, n: Note)
    ensures n in Collect(DuplicateNotes(), served.anchors) <==>
              n.code == DUPLICATE && n.seqNo.Some?
              && exists i :: 0 <= i < |served.anchors| && served.anchors[i].seqNo == n.seqNo.value
                             && served.anchors[i].duplicateCount > 0
    ensures n in Collect(MalformedNotes(), served.malformed) <==> n == Note(MALFORMED, None) && served.malformed != []
  {
    CollectMember(DuplicateNotes(), served.anchors, n);
    CollectMember(MalformedNotes(), served.malformed, n);
    if served.malformed != [] { assert MalformedNotes()(served.malformed[0]) == [Note(MALFORMED, None)]; }
  }

  /** Whatever the disclosure, a note of a completed check is there exactly if its condition holds. */
  lemma {:induction false} NotesMeaning(keccak: Hash, expected: seq<ComputedAnchor>, served: ServedIndex, n: Note)
    requires RowError(served.streamId, served.anchors, |served.anchors|).None?
    ensures n in VerdictOf(keccak, expected, served).notes <==> Noted(keccak, expected, served, n)
  {
    hide ByKey, RowError, InconsistentSeqs, AlteredSeqs, Collect, ServedSeqs, FollowsServed, FollowsDisclosed, Dangles, LinkOmitted;
    var v := SidesOf(keccak, expected, served);
    ServedWalk(served.streamId, served.anchors);
    SimpleNoteMeaning(served, n);
    HeldNotNegative(v.held, ServedSeqs(served.anchors));
    LinkNoteMeaning(v, served, n);
    DisclosureNoteMeaning(v, expected, served, n);
  }

  lemma HeldNotNegative(held: map<int, ServedAnchor>, seqs: seq<int>)
    requires Walk(held, seqs)
    ensures forall s :: s in held ==> s >= 0
  {
    forall s | s in held ensures s >= 0 { assert s in Elements(seqs); }
  }

  lemma {:induction false} MalformedNotesOnly(malformed: seq<ServedMalformed>, n: nat)
    requires n <= |malformed|
    ensures |CollectTo(MalformedNotes(), malformed, n)| == n
    ensures forall note :: note in CollectTo(MalformedNotes(), malformed, n) ==> note == Note(MALFORMED, None)
  {
    if n > 0 { MalformedNotesOnly(malformed, n - 1); }
  }

  /** The notes end with one MALFORMED for each malformed post, and no other note is one. */
  lemma {:induction false} MalformedNotesClose(keccak: Hash, expected: seq<ComputedAnchor>, served: ServedIndex)
    ensures var notes, m := VerdictOf(keccak, expected, served).notes, |served.malformed|;
            && m <= |notes|
            && forall i :: 0 <= i < |notes| ==> (notes[i].code == MALFORMED <==> |notes| - m <= i)
  {
    hide ByKey, InconsistentSeqs, AlteredSeqs, ServedSeqs;
    var v := SidesOf(keccak, expected, served);
    var rows, links, disclosed, tail :=
      Collect(DuplicateNotes(), served.anchors), Collect(LinkNotes(v.held, v.inconsistent), ServedSeqs(served.anchors)),
      Collect(DisclosureNotes(v), expected), Collect(MalformedNotes(), served.malformed);
    MalformedNotesOnly(served.malformed, |served.malformed|);
    NoneMalformed(DuplicateNotes(), served.anchors);
    NoneMalformed(LinkNotes(v.held, v.inconsistent), ServedSeqs(served.anchors));
    NoneMalformed(DisclosureNotes(v), expected);
    TailIs(rows + links + disclosed, tail);
  }

  lemma {:induction false} NoneMalformed<S>(pass: S -> seq<Note>, xs: seq<S>)
    requires forall x, n :: x in xs && n in pass(x) ==> n.code != MALFORMED
    ensures forall n :: n in Collect(pass, xs) ==> n.code != MALFORMED
  {
    forall n | n in Collect(pass, xs) ensures n.code != MALFORMED { CollectMember(pass, xs, n); }
  }

  lemma TailIs(front: seq<Note>, tail: seq<Note>)
    requires forall n :: n in front ==> n.code != MALFORMED
    requires forall n :: n in tail ==> n.code == MALFORMED
    ensures var notes := front + tail;
            forall i :: 0 <= i < |notes| ==> (notes[i].code == MALFORMED <==> |notes| - |tail| <= i)
  {
    var notes := front + tail;
    forall i | 0 <= i < |notes| ensures notes[i].code == MALFORMED <==> |front| <= i {
      if i < |front| { assert notes[i] in front; } else { assert notes[i] in tail; }
    }
  }

  // ----- summary -----------------------------------------------------------------------------

  ghost function ServedPositions(served: ServedIndex): set<int> {
    set i | 0 <= i < |served.anchors| :: served.anchors[i].seqNo
  }

  /** Links are counted by position: checked where the link is the zero link or the row below is served. */
  ghost function CheckedPositions(served: ServedIndex): set<int> {
    set s | s in ServedPositions(served) && !Dangles(served, s)
  }

  ghost predicate Summarises(s: Summary, expected: seq<ComputedAnchor>, served: ServedIndex) {
    && s.disclosedCount == |expected| && s.servedCount == |served.anchors|
    && s.conflictCount == |served.conflicts| && s.malformedCount == |served.malformed|
    && s.checkedLinks == |CheckedPositions(served)|
    && s.unresolvableLinks == |ServedPositions(served) - CheckedPositions(served)|
  }

  ghost function Chosen(p: int -> bool, xs: seq<int>): set<int> {
    set x | x in xs && p(x)
  }

  lemma {:induction false} CountedOnce(p: int -> bool, xs: seq<int>, n: nat)
    requires n <= |xs| && NoDup(xs)
    ensures CountTo(p, xs, n) == |Chosen(p, xs[..n])|
  {
    hide NoDup, Chosen;
    if n == 0 {
      NoneChosen(p);
    } else {
      CountedOnce(p, xs, n - 1);
      NotBefore(xs, n - 1);
      OneMoreChosen(p, xs[..n - 1], xs[n - 1]);
      assert xs[..n] == xs[..n - 1] + [xs[n - 1]];
    }
  }

  lemma NoneChosen(p: int -> bool)
    ensures |Chosen(p, [])| == 0
  {}

  lemma OneMoreChosen(p: int -> bool, front: seq<int>, x: int)
    requires x !in front
    ensures |Chosen(p, front + [x])| == |Chosen(p, front)| + if p(x) then 1 else 0
  {
    if p(x) {
      assert Chosen(p, front + [x]) == Chosen(p, front) + {x};
    } else {
      assert Chosen(p, front + [x]) == Chosen(p, front);
    }
  }

  lemma NotBefore(xs: seq<int>, k: nat)
    requires k < |xs| && NoDup(xs)
    ensures xs[k] !in xs[..k]
  {}

  lemma {:induction false} PositionsAreSeqs(served: ServedIndex)
    ensures Elements(ServedSeqs(served.anchors)) == ServedPositions(served) == ByKey(ServedSeq(), served.anchors).Keys
    ensures NoDup(ServedSeqs(served.anchors))
  {
    HeldRows(served.anchors);
    var held := ByKey(ServedSeq(), served.anchors);
    forall s ensures s in ServedPositions(served) <==> s in held {
      HeldIsServed(served, s);
    }
    assert ServedPositions(served) == held.Keys;
    assert Elements(ServedSeqs(served.anchors)) == held.Keys;
  }

  /** The counts are those of the inputs. */
  lemma {:induction false} SummaryMeaning(keccak: Hash, expected: seq<ComputedAnchor>, served: ServedIndex)
    ensures Summarises(VerdictOf(keccak, expected, served).summary, expected, served)
  {
    hide ServedSeqs, ByKey, ServedPositions, NoDup, Candidates, Notes, DuplicateTotal, CountTo, Dangles;
    var seqs, held := ServedSeqs(served.anchors), ByKey(ServedSeq(), served.anchors);
    PositionsAreSeqs(served);
    CountedOnce(IsResolvable(held), seqs, |seqs|);
    DistinctCount(seqs);
    assert seqs[..|seqs|] == seqs;
    CheckedAreResolvable(served);
    assert CheckedPositions(served) <= ServedPositions(served);
  }

  lemma {:induction false} CheckedAreResolvable(served: ServedIndex)
    ensures Chosen(IsResolvable(ByKey(ServedSeq(), served.anchors)), ServedSeqs(served.anchors)) == CheckedPositions(served)
  {
    hide ServedSeqs, ByKey, ServedPositions, NoDup;
    var seqs := ServedSeqs(served.anchors);
    var checked := Chosen(IsResolvable(ByKey(ServedSeq(), served.anchors)), seqs);
    PositionsAreSeqs(served);
    forall s ensures s in checked <==> s in CheckedPositions(served) {
      assert s in Elements(seqs) <==> s in seqs;
      HeldIsServed(served, s);
      HeldIsServed(served, s - 1);
    }
  }

  function FirstRows(served: ServedIndex, n: nat): ServedIndex
    requires n <= |served.anchors|
  {
    served.(anchors := served.anchors[..n])
  }

  /** The duplicate count adds up row by row. */
  lemma {:induction false} DuplicatesAdd(keccak: Hash, expected: seq<ComputedAnchor>, served: ServedIndex, k: nat)
    requires k < |served.anchors|
    ensures VerdictOf(keccak, expected, FirstRows(served, 0)).summary.duplicateCount == 0
    ensures VerdictOf(keccak, expected, FirstRows(served, k + 1)).summary.duplicateCount ==
              VerdictOf(keccak, expected, FirstRows(served, k)).summary.duplicateCount + served.anchors[k].duplicateCount
  {
    hide Candidates, Notes, ServedSeqs, CountTo;
    TotalOfPrefix(served.anchors, k, k);
    TotalOfPrefix(served.anchors, k + 1, k);
  }

  lemma {:induction false} TotalOfPrefix(rows: seq<ServedAnchor>, m: nat, n: nat)
    requires n <= m <= |rows|
    ensures DuplicateTotal(rows[..m], n) == DuplicateTotal(rows, n)
  {
    if n > 0 { TotalOfPrefix(rows, m, n - 1); }
  }

  // ----- the order of the findings ---------------------------------------------------------------

  function PassNumber(code: FindingCode): nat {
    match code
    case ENVELOPE_MISMATCH => 0
    case GAP => 1
    case ALTERED => 2
    case MISSING => 3
    case CHAIN_BREAK => 4
    case CONFLICT => 5
    case COUNT_MISMATCH => 6
  }

  /** Pass by pass; gaps, alterations and breaks go up the positions. */
  predicate Precedes(f: Finding, g: Finding) {
    || PassNumber(f.code) < PassNumber(g.code)
    || (f.code == g.code
        && (f.code == GAP || f.code == ALTERED || f.code == CHAIN_BREAK ==>
              f.seqNo.Some? && g.seqNo.Some? && f.seqNo.value <= g.seqNo.value))
  }

  function InOrder(): (Finding, Finding) -> bool { (f: Finding, g: Finding) => Precedes(f, g) }

  /** A pass pushes findings of one code, at most one for each element. */
  ghost predicate OfCode<S>(pass: S -> seq<Finding>, xs: seq<S>, code: FindingCode) {
    forall i, f {:trigger f in pass(xs[i])} :: 0 <= i < |xs| && f in pass(xs[i]) ==> |pass(xs[i])| == 1 && f.code == code
  }

  /** And those of an earlier element precede those of a later one. */
  ghost predicate GoesUp<S>(pass: S -> seq<Finding>, xs: seq<S>) {
    forall i, j, f, g {:trigger f in pass(xs[i]), g in pass(xs[j])} ::
      0 <= i < j < |xs| && f in pass(xs[i]) && g in pass(xs[j]) ==> Precedes(f, g)
  }

  lemma {:induction false} PassInOrder<S>(pass: S -> seq<Finding>, xs: seq<S>, code: FindingCode, n: nat)
    requires n <= |xs| && OfCode(pass, xs, code) && GoesUp(pass, xs)
    ensures SortedBy(InOrder(), CollectTo(pass, xs, n))
    ensures forall f :: f in CollectTo(pass, xs, n) ==> f.code == code
  {
    if n > 0 {
      PassInOrder(pass, xs, code, n - 1);
      var a, b := CollectTo(pass, xs, n - 1), pass(xs[n - 1]);
      if b != [] { assert b[0] in b; }
      forall f, g | f in a && g in b ensures Precedes(f, g) { CollectToMember(pass, xs, n - 1, f); }
      SortedJoin(InOrder(), a, b);
    }
  }

  lemma {:induction false} DedupInOrder(xs: seq<Finding>, n: nat)
    requires n <= |xs| && SortedBy(InOrder(), xs)
    ensures SortedBy(InOrder(), DedupTo(xs, n))
  {
    if n > 0 {
      DedupInOrder(xs, n - 1);
      DedupToMember(xs, n - 1);
      var below := DedupTo(xs, n - 1);
      forall f | f in below ensures Precedes(f, xs[n - 1]) {
        var i :| 0 <= i < n - 1 && xs[i] == f;
        assert InOrder()(xs[i], xs[n - 1]);
      }
      SortedJoin(InOrder(), below, [xs[n - 1]]);
    }
  }

  lemma {:induction false} UpToAscends(high: Option<int>)
    ensures Ascending(UpTo(high))
  {}

  /** Against a well-chained disclosure the findings come pass by pass, and within a chain or position pass upwards. */
  lemma {:induction false} FindingsInOrder(keccak: Hash, expected: seq<ComputedAnchor>, served: ServedIndex)
    requires WellChained(keccak, served.streamId, expected)
    ensures var findings := VerdictOf(keccak, expected, served).findings;
            forall i, j :: 0 <= i < j < |findings| ==> Precedes(findings[i], findings[j])
  {
    hide ByKey, InconsistentSeqs, AlteredSeqs, ServedSeqs, SortedBy, Collect, RowInconsistent, Restated, Broken;
    DisclosurePassAddsNothing(keccak, expected, served);
    var conflicts, count := Collect(ConflictPass(), served.conflicts), CountCandidates(expected, served);
    var all := RowCandidates(keccak, expected, served) + conflicts + count;
    RowsInOrder(keccak, expected, served);
    CloseInOrder(RowCandidates(keccak, expected, served), expected, served);
    DedupInOrder(all, |all|);
    OrderedPairs(Dedup(all));
  }

  lemma OrderedPairs(xs: seq<Finding>)
    requires SortedBy(InOrder(), xs)
    ensures forall i, j :: 0 <= i < j < |xs| ==> Precedes(xs[i], xs[j])
  {
    forall i, j | 0 <= i < j < |xs| ensures Precedes(xs[i], xs[j]) { assert InOrder()(xs[i], xs[j]); }
  }

  lemma {:induction false} CloseInOrder(rows: seq<Finding>, expected: seq<ComputedAnchor>, served: ServedIndex)
    requires SortedBy(InOrder(), rows) && forall f :: f in rows ==> PassNumber(f.code) <= 4
    ensures SortedBy(InOrder(), rows + Collect(ConflictPass(), served.conflicts) + CountCandidates(expected, served))
  {
    var conflicts, count := Collect(ConflictPass(), served.conflicts), CountCandidates(expected, served);
    PassInOrder(ConflictPass(), served.conflicts, CONFLICT, |served.conflicts|);
    SortedJoin(InOrder(), rows, conflicts);
    SortedJoin(InOrder(), rows + conflicts, count);
  }

  lemma {:induction false} RowsInOrder(keccak: Hash, expected: seq<ComputedAnchor>, served: ServedIndex)
    requires Increasing(AnchorSeq(), expected)
    ensures SortedBy(InOrder(), RowCandidates(keccak, expected, served))
    ensures forall f :: f in RowCandidates(keccak, expected, served) ==> PassNumber(f.code) <= 4
  {
    hide ByKey, InconsistentSeqs, AlteredSeqs, ServedSeqs, SortedBy, RowInconsistent, Restated, Broken, Precedes, OfCode, GoesUp;
    var v, seqs := SidesOf(keccak, expected, served), ServedSeqs(served.anchors);
    var high := UpTo(HighWater(Last(seqs), LastDisclosed(expected)));
    ServedSeqsSorted(served.anchors);
    UpToAscends(HighWater(Last(seqs), LastDisclosed(expected)));
    var mismatches, gaps, altered, missing, breaks :=
      Collect(EnvelopePass(keccak, served.streamId), served.anchors), Collect(GapPass(v.disclosed, v.held, Last(seqs)), high),
      Collect(AlteredPass(v.held), expected), Collect(MissingPass(v.disclosed), served.anchors),
      Collect(BreakPass(v.held, v.inconsistent), seqs);
    RowPassesInOrder(keccak, v, served, seqs, high, expected);
    Later(mismatches, gaps, 0, 1);
    Later(mismatches + gaps, altered, 1, 2);
    Later(mismatches + gaps + altered, missing, 2, 3);
    Later(mismatches + gaps + altered + missing, breaks, 3, 4);
  }

  lemma {:induction false} Later(a: seq<Finding>, b: seq<Finding>, m: nat, n: nat)
    requires m < n && SortedBy(InOrder(), a) && SortedBy(InOrder(), b)
    requires forall f :: f in a ==> PassNumber(f.code) <= m
    requires forall f :: f in b ==> PassNumber(f.code) == n
    ensures SortedBy(InOrder(), a + b) && forall f :: f in a + b ==> PassNumber(f.code) <= n
  {
    SortedJoin(InOrder(), a, b);
  }

  lemma {:induction false} RowPassesInOrder(keccak: Hash, v: Sides, served: ServedIndex, seqs: seq<int>, high: seq<int>,
                                            expected: seq<ComputedAnchor>)
    requires Ascending(seqs) && Ascending(high) && Increasing(AnchorSeq(), expected)
    ensures Pushes(Collect(EnvelopePass(keccak, served.streamId), served.anchors), ENVELOPE_MISMATCH)
    ensures Pushes(Collect(GapPass(v.disclosed, v.held, Last(seqs)), high), GAP)
    ensures Pushes(Collect(AlteredPass(v.held), expected), ALTERED)
    ensures Pushes(Collect(MissingPass(v.disclosed), served.anchors), MISSING)
    ensures Pushes(Collect(BreakPass(v.held, v.inconsistent), seqs), CHAIN_BREAK)
  {
    hide SortedBy, OfCode, GoesUp, CollectTo, InOrder, Precedes;
    MismatchesGoUp(keccak, served.streamId, served.anchors);
    PassInOrder(EnvelopePass(keccak, served.streamId), served.anchors, ENVELOPE_MISMATCH, |served.anchors|);
    GapsGoUp(v, Last(seqs), high);
    PassInOrder(GapPass(v.disclosed, v.held, Last(seqs)), high, GAP, |high|);
    AlteredGoesUp(v.held, expected);
    PassInOrder(AlteredPass(v.held), expected, ALTERED, |expected|);
    MissingGoesUp(v.disclosed, served.anchors);
    PassInOrder(MissingPass(v.disclosed), served.anchors, MISSING, |served.anchors|);
    BreaksGoUp(v, seqs);
    PassInOrder(BreakPass(v.held, v.inconsistent), seqs, CHAIN_BREAK, |seqs|);
  }

  lemma MismatchesGoUp(keccak: Hash, streamId: Bytes, rows: seq<ServedAnchor>)
    ensures OfCode(EnvelopePass(keccak, streamId), rows, ENVELOPE_MISMATCH) && GoesUp(EnvelopePass(keccak, streamId), rows)
  {
    hide RowInconsistent;
  }

  lemma GapsGoUp(v: Sides, maxServed: Option<int>, positions: seq<int>)
    requires Ascending(positions)
    ensures OfCode(GapPass(v.disclosed, v.held, maxServed), positions, GAP)
    ensures GoesUp(GapPass(v.disclosed, v.held, maxServed), positions)
  {}

  lemma MissingGoesUp(disclosed: map<int, ComputedAnchor>, rows: seq<ServedAnchor>)
    ensures OfCode(MissingPass(disclosed), rows, MISSING) && GoesUp(MissingPass(disclosed), rows)
  {}

  lemma BreaksGoUp(v: Sides, seqs: seq<int>)
    requires Ascending(seqs)
    ensures OfCode(BreakPass(v.held, v.inconsistent), seqs, CHAIN_BREAK)
    ensures GoesUp(BreakPass(v.held, v.inconsistent), seqs)
  {
    hide Broken;
  }

  ghost predicate Pushes(xs: seq<Finding>, code: FindingCode) {
    SortedBy(InOrder(), xs) && forall f :: f in xs ==> f.code == code
  }

  lemma {:induction false} AlteredGoesUp(held: map<int, ServedAnchor>, expected: seq<ComputedAnchor>)
    requires Increasing(AnchorSeq(), expected)
    ensures OfCode(AlteredPass(held), expected, ALTERED) && GoesUp(AlteredPass(held), expected)
  {
    hide Restated;
    forall i, j | 0 <= i < j < |expected| ensures expected[i].seqNo < expected[j].seqNo {
      assert AnchorSeq()(expected[i]) < AnchorSeq()(expected[j]);
    }
  }

  // ----- when there is no verdict ------------------------------------------------------------------

  /** The first of `n` rows that cannot be re-encoded decides the error. */
  lemma {:induction false} FirstRowError(streamId: Bytes, rows: seq<ServedAnchor>, n: nat) returns (i: nat)
    requires n <= |rows| && RowError(streamId, rows, n).Some?
    ensures i < n && EncodeEnvelope(RowFields(streamId, rows[i])) == Err(RowError(streamId, rows, n).value)
    ensures forall k :: 0 <= k < i ==> Encodable(RowFields(streamId, rows[k]))
  {
    if RowError(streamId, rows, n - 1).Some? {
      i := FirstRowError(streamId, rows, n - 1);
    } else {
      i := n - 1;
      forall k | 0 <= k < i ensures Encodable(RowFields(streamId, rows[k])) { RowsEncodable(streamId, rows, i, k); }
    }
  }

  /** A check ends without a verdict exactly if some served row has a stream id, a digest or a link of another width than 32
      bytes or a position outside 64 bits, and with the encoder's error for the first such row. */
  lemma {:induction false} NoVerdictExactly(keccak: Hash, expected: seq<ComputedAnchor>, served: ServedIndex)
    ensures Compare(keccak, expected, served).Ok? <==>
              forall i :: 0 <= i < |served.anchors| ==>
                && |served.streamId| == |served.anchors[i].ciphertextDigest| == |served.anchors[i].prevEnvelopeDigest| == 32
                && 0 <= served.anchors[i].seqNo < 0x1_0000_0000_0000_0000
    ensures Compare(keccak, expected, served).Err? ==>
              exists i :: 0 <= i < |served.anchors|
                && EncodeEnvelope(RowFields(served.streamId, served.anchors[i])) == Err(Compare(keccak, expected, served).error)
                && forall k :: 0 <= k < i ==> Encodable(RowFields(served.streamId, served.anchors[k]))
  {
    hide VerdictOf, EncodeEnvelope, RowError;
    var rows, n := served.anchors, |served.anchors|;
    if RowError(served.streamId, rows, n).Some? {
      var i := FirstRowError(served.streamId, rows, n);
      assert !Encodable(RowFields(served.streamId, rows[i]));
    } else {
      forall i | 0 <= i < n ensures Encodable(RowFields(served.streamId, rows[i])) {
        RowsEncodable(served.streamId, rows, n, i);
      }
    }
  }
}
