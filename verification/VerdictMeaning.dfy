/** What the findings and notes of a verdict mean. */
module VerdictMeaning {
  import opened Basics
  import opened ByteCodec
  import opened Envelope
  import opened AnchorStream
  import opened ServedIndexes
  import opened Verdicts

  // ----- every finding, by what it says about the inputs --------------------------------

  /** When `f` is reported, whatever the two inputs are. */
  ghost predicate Reported(keccak: Hash, expected: seq<ComputedAnchor>, served: ServedIndex, f: Finding) {
    var v := SidesOf(keccak, expected, served);
    match f
    case Finding(ENVELOPE_MISMATCH, Some(s)) =>
      s in v.inconsistent || exists i :: 0 <= i < |expected| && expected[i].seqNo == s && DigestDiffers(v, expected[i])
    case Finding(GAP, Some(s)) =>
      0 <= s && s !in v.held
      && (|| (exists t :: t in v.held && s < t)
          || (s in v.disclosed && expected != [] && s <= expected[|expected| - 1].seqNo))
    case Finding(ALTERED, Some(s)) => s in v.altered
    case Finding(MISSING, Some(s)) => s in v.held && s !in v.disclosed
    case Finding(CHAIN_BREAK, Some(s)) =>
      || Broken(v.held, v.inconsistent, s)
      || (!Excused(v, s) && exists i :: 0 <= i < |expected| && expected[i].seqNo == s && PrevDiffers(v, expected[i]))
    case Finding(CONFLICT, Some(s)) => exists i :: 0 <= i < |served.conflicts| && served.conflicts[i].seqNo == s
    case Finding(COUNT_MISMATCH, None) => |expected| != |served.anchors|
    case _ => false
  }

  lemma {:induction false} HeldRows(rows: seq<ServedAnchor>)
    ensures var held := ByKey(ServedSeq(), rows);
            && (forall i :: 0 <= i < |rows| ==> rows[i].seqNo in held)
            && (forall s :: s in held ==> held[s].seqNo == s && exists i :: 0 <= i < |rows| && rows[i] == held[s])
    ensures forall s :: s in ByKey(ServedSeq(), rows) <==> s in ServedSeqs(rows)
    ensures Ascending(ServedSeqs(rows))
  {
    ByKeyMember(ServedSeq(), rows);
    ServedSeqsSorted(rows);
    var held := ByKey(ServedSeq(), rows);
    forall i | 0 <= i < |rows| ensures rows[i].seqNo in held { assert rows[i] in rows; assert ServedSeq()(rows[i]) in held; }
    forall s | s in held ensures held[s].seqNo == s && exists i :: 0 <= i < |rows| && rows[i] == held[s] {
      assert ServedSeq()(held[s]) == s;
    }
    forall s ensures s in held <==> s in ServedSeqs(rows) {
      if s in held { var i :| 0 <= i < |rows| && rows[i] == held[s]; assert ServedSeq()(rows[i]) == s; }
    }
  }

  lemma {:induction false} PassMembers<S>(pass: S -> seq<Finding>, xs: seq<S>, f: Finding)
    ensures f in Collect(pass, xs) <==> exists i :: 0 <= i < |xs| && f in pass(xs[i])
  {
    CollectMember(pass, xs, f);
  }

  lemma {:induction false} LastServed(rows: seq<ServedAnchor>, s: int)
    ensures (Last(ServedSeqs(rows)).Some? && s < Last(ServedSeqs(rows)).value)
            <==> exists t :: t in ByKey(ServedSeq(), rows) && s < t
  {
    HeldRows(rows);
    var seqs := ServedSeqs(rows);
    if seqs != [] {
      assert seqs[|seqs| - 1] in seqs;
      if t :| t in ByKey(ServedSeq(), rows) && s < t {
        var i :| 0 <= i < |seqs| && seqs[i] == t;
        assert seqs[i] <= seqs[|seqs| - 1];
      }
    }
  }

  lemma {:induction false} EnvelopePassMeaning(keccak: Hash, streamId: Bytes, rows: seq<ServedAnchor>, f: Finding)
    ensures f in Collect(EnvelopePass(keccak, streamId), rows) <==>
              f.code == ENVELOPE_MISMATCH && f.seqNo.Some?
              && f.seqNo.value in InconsistentSeqs(keccak, streamId, rows, |rows|)
  {
    PassMembers(EnvelopePass(keccak, streamId), rows, f);
  }

  /** The walk to the high-water mark looks at every position a gap can be at. */
  lemma {:induction false} HighWaterReaches(rows: seq<ServedAnchor>, expected: seq<ComputedAnchor>, disclosed: bool, s: int)
    requires s !in ByKey(ServedSeq(), rows)
    ensures s in UpTo(HighWater(Last(ServedSeqs(rows)), LastDisclosed(expected)))
            && (disclosed || exists t :: t in ByKey(ServedSeq(), rows) && s < t)
            <==>
            0 <= s && (|| (exists t :: t in ByKey(ServedSeq(), rows) && s < t)
                       || (disclosed && expected != [] && s <= expected[|expected| - 1].seqNo))
  {
    hide ByKey, ServedSeqs;
    LastServed(rows, s);
    HeldRows(rows);
    var seqs, high := ServedSeqs(rows), HighWater(Last(ServedSeqs(rows)), LastDisclosed(expected));
    if seqs != [] { assert seqs[|seqs| - 1] in seqs; }
    ReachesUpTo(high, s);
  }

  lemma ReachesUpTo(high: Option<int>, s: int)
    ensures s in UpTo(high) <==> high.Some? && 0 <= s <= high.value
  {
    if high.Some? && 0 <= s <= high.value { assert UpTo(high)[s] == s; }
  }

  lemma {:induction false} GapPassMeaning(v: Sides, rows: seq<ServedAnchor>, positions: seq<int>, f: Finding)
    requires v.held == ByKey(ServedSeq(), rows)
    ensures f in Collect(GapPass(v.disclosed, v.held, Last(ServedSeqs(rows))), positions) <==>
              && f.code == GAP && f.seqNo.Some? && f.seqNo.value in positions && f.seqNo.value !in v.held
              && (f.seqNo.value in v.disclosed || exists t :: t in v.held && f.seqNo.value < t)
  {
    PassMembers(GapPass(v.disclosed, v.held, Last(ServedSeqs(rows))), positions, f);
    if f.seqNo.Some? { LastServed(rows, f.seqNo.value); }
  }

  lemma {:induction false} AlteredPassMeaning(held: map<int, ServedAnchor>, expected: seq<ComputedAnchor>, f: Finding)
    ensures f in Collect(AlteredPass(held), expected) <==>
              f.code == ALTERED && f.seqNo.Some? && f.seqNo.value in AlteredSeqs(held, expected, |expected|)
  {
    PassMembers(AlteredPass(held), expected, f);
  }

  lemma {:induction false} MissingPassMeaning(disclosed: map<int, ComputedAnchor>, rows: seq<ServedAnchor>, f: Finding)
    ensures f in Collect(MissingPass(disclosed), rows) <==>
              && f.code == MISSING && f.seqNo.Some?
              && f.seqNo.value in ByKey(ServedSeq(), rows) && f.seqNo.value !in disclosed
  {
    PassMembers(MissingPass(disclosed), rows, f);
    HeldRows(rows);
    var held := ByKey(ServedSeq(), rows);
    if f.seqNo.Some? {
      var s: int := f.seqNo.value;
      if f.code == MISSING && s in held && s !in disclosed {
        assert held[s].seqNo == s;
        var i :| 0 <= i < |rows| && rows[i] == held[s];
        assert f in MissingPass(disclosed)(rows[i]);
      }
    }
  }

  lemma BrokenIsHeld(held: map<int, ServedAnchor>, inconsistent: set<int>, s: int)
    ensures Broken(held, inconsistent, s) ==> s in held
  {}

  lemma {:induction false} BreakPassMeaning(held: map<int, ServedAnchor>, inconsistent: set<int>, rows: seq<ServedAnchor>, f: Finding)
    requires held == ByKey(ServedSeq(), rows)
    ensures f in Collect(BreakPass(held, inconsistent), ServedSeqs(rows)) <==>
              f.code == CHAIN_BREAK && f.seqNo.Some? && Broken(held, inconsistent, f.seqNo.value)
  {
    hide Broken;
    if f.seqNo.Some? { BrokenIsHeld(held, inconsistent, f.seqNo.value); }
    PassMembers(BreakPass(held, inconsistent), ServedSeqs(rows), f);
    HeldRows(rows);
  }

  /** The candidates of the passes over served rows, read as statements about the inputs. */
  lemma {:induction false} RowCandidateMeaning(keccak: Hash, expected: seq<ComputedAnchor>, served: ServedIndex, f: Finding)
    ensures f in RowCandidates(keccak, expected, served) <==>
              var v := SidesOf(keccak, expected, served);
              match f
              case Finding(ENVELOPE_MISMATCH, Some(s)) => s in v.inconsistent
              case Finding(CHAIN_BREAK, Some(s)) => Broken(v.held, v.inconsistent, s)
              case Finding(GAP, Some(s)) => Reported(keccak, expected, served, f)
              case Finding(ALTERED, Some(s)) => s in v.altered
              case Finding(MISSING, Some(s)) => s in v.held && s !in v.disclosed
              case _ => false
  {
    hide ByKey, UpTo, HighWater, ServedSeqs, Broken;
    var v := SidesOf(keccak, expected, served);
    EnvelopePassMeaning(keccak, served.streamId, served.anchors, f);
    GapPassMeaning(v, served.anchors, UpTo(HighWater(Last(ServedSeqs(served.anchors)), LastDisclosed(expected))), f);
    if f.seqNo.Some? && f.seqNo.value !in v.held {
      HighWaterReaches(served.anchors, expected, f.seqNo.value in v.disclosed, f.seqNo.value);
    }
    AlteredPassMeaning(v.held, expected, f);
    MissingPassMeaning(v.disclosed, served.anchors, f);
    BreakPassMeaning(v.held, v.inconsistent, served.anchors, f);
  }

  lemma {:induction false} DisclosurePassMeaning(v: Sides, expected: seq<ComputedAnchor>, f: Finding)
    ensures f in Collect(DisclosurePass(v), expected) <==>
              match f
              case Finding(ENVELOPE_MISMATCH, Some(s)) =>
                exists i :: 0 <= i < |expected| && expected[i].seqNo == s && DigestDiffers(v, expected[i])
              case Finding(CHAIN_BREAK, Some(s)) =>
                !Excused(v, s) && exists i :: 0 <= i < |expected| && expected[i].seqNo == s && PrevDiffers(v, expected[i])
              case _ => false
  {
    PassMembers(DisclosurePass(v), expected, f);
    match f
    case Finding(ENVELOPE_MISMATCH, Some(s)) =>
      forall i | 0 <= i < |expected|
        ensures f in DisclosurePass(v)(expected[i]) <==> expected[i].seqNo == s && DigestDiffers(v, expected[i])
      {}
    case Finding(CHAIN_BREAK, Some(s)) =>
      forall i | 0 <= i < |expected|
        ensures f in DisclosurePass(v)(expected[i]) <==>
                  expected[i].seqNo == s && PrevDiffers(v, expected[i]) && !Excused(v, s)
      {}
    case _ =>
  }

  lemma {:induction false} ConflictPassMeaning(conflicts: seq<ServedConflict>, f: Finding)
    ensures f in Collect(ConflictPass(), conflicts) <==>
              && f.code == CONFLICT && f.seqNo.Some?
              && exists i :: 0 <= i < |conflicts| && conflicts[i].seqNo == f.seqNo.value
  {
    PassMembers(ConflictPass(), conflicts, f);
    if f.code == CONFLICT && f.seqNo.Some? {
      if i :| 0 <= i < |conflicts| && conflicts[i].seqNo == f.seqNo.value { assert f in ConflictPass()(conflicts[i]); }
    }
  }

  /** The findings of any verdict are exactly the reported ones, each once. */
  lemma {:induction false} FindingsMeaning(keccak: Hash, expected: seq<ComputedAnchor>, served: ServedIndex, f: Finding)
    ensures f in VerdictOf(keccak, expected, served).findings <==> Reported(keccak, expected, served, f)
    ensures NoDup(VerdictOf(keccak, expected, served).findings)
  {
    var all := Candidates(keccak, expected, served);
    assert NoDup(Dedup(all)) && (f in Dedup(all) <==> f in all) by { DedupMember(all); }
    CandidateMeaning(keccak, expected, served, f);
  }

  lemma {:induction false} CandidateMeaning(keccak: Hash, expected: seq<ComputedAnchor>, served: ServedIndex, f: Finding)
    ensures f in Candidates(keccak, expected, served) <==> Reported(keccak, expected, served, f)
  {
    RowCandidateMeaning(keccak, expected, served, f);
    DisclosurePassMeaning(SidesOf(keccak, expected, served), expected, f);
    ConflictPassMeaning(served.conflicts, f);
    assert f in CountCandidates(expected, served) <==>
             f == Finding(COUNT_MISMATCH, None) && |expected| != |served.anchors|;
  }

  // ----- inputs the checker is used on ----------------------------------------------------

  /** `expected` is what some records compute to and the run gives verdict `verdict`. */
  ghost predicate Checks(keccak: Hash, expected: seq<ComputedAnchor>, served: ServedIndex, verdict: Verdict) {
    && WellChained(keccak, served.streamId, expected)
    && Compare(keccak, expected, served) == Ok(verdict)
  }

  lemma {:induction false} DisclosedAnchors(keccak: Hash, streamId: Bytes, expected: seq<ComputedAnchor>)
    requires WellChained(keccak, streamId, expected)
    ensures var m := ByKey(AnchorSeq(), expected);
            && (forall i :: 0 <= i < |expected| ==> expected[i].seqNo in m && m[expected[i].seqNo] == expected[i])
            && (forall s :: s in m ==> m[s].seqNo == s && Linked(keccak, streamId, m, m[s]))
            && (forall s :: s in m ==> exists i :: 0 <= i < |expected| && expected[i] == m[s])
  {
    var m := ByKey(AnchorSeq(), expected);
    ByKeyMember(AnchorSeq(), expected);
    forall s | s in m ensures m[s].seqNo == s && exists i :: 0 <= i < |expected| && expected[i] == m[s] {
      assert AnchorSeq()(m[s]) == s;
    }
    forall i | 0 <= i < |expected| ensures expected[i].seqNo in m && m[expected[i].seqNo] == expected[i] {
      var a := expected[i];
      assert a in expected && AnchorSeq()(a) in m;
      var k :| 0 <= k < |expected| && expected[k] == m[a.seqNo];
      assert AnchorSeq()(expected[k]) == AnchorSeq()(expected[i]);
    }
  }

  /** Where the disclosure's link at `s` differs from the served one, the difference is already flagged at `s`
      or at the position below, or it is inherited from the link below. */
  lemma {:induction false} PrevDivergence(keccak: Hash, expected: seq<ComputedAnchor>, served: ServedIndex, s: int)
    requires WellChained(keccak, served.streamId, expected)
    requires var v := SidesOf(keccak, expected, served); s in v.disclosed && PrevDiffers(v, v.disclosed[s])
    ensures var v := SidesOf(keccak, expected, served);
            || Broken(v.held, v.inconsistent, s)
            || (s > 0 && s - 1 in v.disclosed
                && (|| s - 1 !in v.held || s - 1 in v.altered || s - 1 in v.inconsistent
                    || Broken(v.held, v.inconsistent, s - 1) || PrevDiffers(v, v.disclosed[s - 1])))
  {
    var v := SidesOf(keccak, expected, served);
    DisclosedOne(keccak, served.streamId, expected, s);
    LinkPresent(keccak, served.streamId, v, s);
    if s == 0 {
      LinkFollows(keccak, served.streamId, v, s);
    } else if s - 1 in v.held && s - 1 !in v.altered && s - 1 !in v.inconsistent
              && !Broken(v.held, v.inconsistent, s - 1) && !PrevDiffers(v, v.disclosed[s - 1]) {
      SameEnvelopeBelow(keccak, expected, served, s - 1);
      LinkFollows(keccak, served.streamId, v, s);
    }
  }

  lemma DisclosedOne(keccak: Hash, streamId: Bytes, expected: seq<ComputedAnchor>, s: int)
    requires WellChained(keccak, streamId, expected) && s in ByKey(AnchorSeq(), expected)
    ensures var m := ByKey(AnchorSeq(), expected); m[s].seqNo == s && Linked(keccak, streamId, m, m[s])
  {
    DisclosedAnchors(keccak, streamId, expected);
  }

  /** A resolved link comes from a resolved anchor below, or from the start of the stream. */
  lemma LinkPresent(keccak: Hash, streamId: Bytes, v: Sides, s: int)
    requires s in v.disclosed && v.disclosed[s].seqNo == s && Linked(keccak, streamId, v.disclosed, v.disclosed[s])
    requires PrevDiffers(v, v.disclosed[s])
    ensures s >= 0 && (s > 0 ==> s - 1 in v.disclosed && v.disclosed[s - 1].envelopeDigest.Some?)
  {}

  /** A resolved anchor that agrees with its consistent served row in digest and link has the served envelope digest. */
  lemma {:induction false} SameEnvelopeBelow(keccak: Hash, expected: seq<ComputedAnchor>, served: ServedIndex, s: int)
    requires WellChained(keccak, served.streamId, expected)
    requires var v := SidesOf(keccak, expected, served);
             && s in v.disclosed && s in v.held && s !in v.altered && s !in v.inconsistent
             && !PrevDiffers(v, v.disclosed[s]) && v.disclosed[s].envelopeDigest.Some?
    ensures var v := SidesOf(keccak, expected, served);
            v.disclosed[s].envelopeDigest == Some(v.held[s].envelopeDigest)
  {
    var v := SidesOf(keccak, expected, served);
    DisclosedOne(keccak, served.streamId, expected, s);
    SameDigest(keccak, expected, served, s);
    SameRowDigest(keccak, served, s);
  }

  lemma {:induction false} SameDigest(keccak: Hash, expected: seq<ComputedAnchor>, served: ServedIndex, s: int)
    requires WellChained(keccak, served.streamId, expected)
    requires var v := SidesOf(keccak, expected, served); s in v.disclosed && s in v.held && s !in v.altered
    ensures var v := SidesOf(keccak, expected, served); v.disclosed[s].ciphertextDigest == v.held[s].ciphertextDigest
  {
    var v := SidesOf(keccak, expected, served);
    DisclosedAnchors(keccak, served.streamId, expected);
    var j :| 0 <= j < |expected| && expected[j] == v.disclosed[s];
    assert !Restated(v.held, expected[j]);
  }

  lemma {:induction false} SameRowDigest(keccak: Hash, served: ServedIndex, s: int)
    requires s in ByKey(ServedSeq(), served.anchors)
    requires s !in InconsistentSeqs(keccak, served.streamId, served.anchors, |served.anchors|)
    ensures var row := ByKey(ServedSeq(), served.anchors)[s];
            row.seqNo == s && row.envelopeDigest ==
              RowDigest(keccak, served.streamId, s, row.ciphertextDigest, row.prevEnvelopeDigest)
  {
    HeldRows(served.anchors);
    var i :| 0 <= i < |served.anchors| && served.anchors[i] == ByKey(ServedSeq(), served.anchors)[s];
    assert !RowInconsistent(keccak, served.streamId, served.anchors[i]);
  }

  // ----- the disclosure-side chain pass ----------------------------------------------------

  /** Against a well-chained disclosure the pass never takes its CHAIN-BREAK branch, and the row of an
      ENVELOPE-MISMATCH it would add is internally inconsistent and so was reported before. */
  lemma {:induction false} DisclosurePassSettled(keccak: Hash, expected: seq<ComputedAnchor>, served: ServedIndex, i: nat)
    requires WellChained(keccak, served.streamId, expected) && i < |expected|
    ensures var v := SidesOf(keccak, expected, served);
            && (PrevDiffers(v, expected[i]) ==> Excused(v, expected[i].seqNo))
            && (DigestDiffers(v, expected[i]) ==> expected[i].seqNo in v.inconsistent)
  {
    hide Broken, ByKey, WellChained, Linked, Agree, InconsistentSeqs, AlteredSeqs;
    var v := SidesOf(keccak, expected, served);
    DisclosedAnchors(keccak, served.streamId, expected);
    var a := expected[i];
    var s := a.seqNo;
    assert a == v.disclosed[s];
    if PrevDiffers(v, a) && Agree(v, s - 1) {
      LinkFollows(keccak, served.streamId, v, s);
    }
    if && a.seqNo in v.held && s !in v.inconsistent && s !in v.altered
       && !PrevDiffers(v, a) && a.envelopeDigest.Some? {
      SameEnvelopeBelow(keccak, expected, served, s);
    }
  }

  /** If both sides agree below `s` but not about the link at `s`, the served chain itself is broken at `s`. */
  lemma {:induction false} LinkFollows(keccak: Hash, streamId: Bytes, v: Sides, s: int)
    requires s in v.disclosed && v.disclosed[s].seqNo == s && Linked(keccak, streamId, v.disclosed, v.disclosed[s])
    requires PrevDiffers(v, v.disclosed[s]) && Agree(v, s - 1)
    ensures Broken(v.held, v.inconsistent, s)
  {
    if s > 0 {
      assert v.disclosed[s].prevEnvelopeDigest == Some(v.held[s - 1].envelopeDigest);
      assert Trusted(v.held, v.inconsistent, s - 1);
    }
  }

  /** The disclosure-side chain pass adds no finding: leaving it out gives the same findings in the same order. */
  lemma {:induction false} DisclosurePassAddsNothing(keccak: Hash, expected: seq<ComputedAnchor>, served: ServedIndex)
    requires WellChained(keccak, served.streamId, expected)
    ensures VerdictOf(keccak, expected, served).findings ==
              Dedup(RowCandidates(keccak, expected, served) + Collect(ConflictPass(), served.conflicts)
                    + CountCandidates(expected, served))
    ensures forall s :: Finding(CHAIN_BREAK, Some(s)) !in Collect(DisclosurePass(SidesOf(keccak, expected, served)), expected)
  {
    var v := SidesOf(keccak, expected, served);
    var rows := RowCandidates(keccak, expected, served);
    var more := Collect(DisclosurePass(v), expected);
    forall f | f in more ensures f in rows && f.code != CHAIN_BREAK {
      PassMembers(DisclosurePass(v), expected, f);
      var i :| 0 <= i < |expected| && f in DisclosurePass(v)(expected[i]);
      DisclosurePassSettled(keccak, expected, served, i);
      RowCandidateMeaning(keccak, expected, served, f);
    }
    DedupAbsorbs(rows, more);
    var conflicts, count := Collect(ConflictPass(), served.conflicts), CountCandidates(expected, served);
    DedupSameTail(rows + more, rows, conflicts);
    DedupSameTail(rows + more + conflicts, rows + conflicts, count);
  }

  /** The findings against a well-chained disclosure, each with its own condition on the inputs. */
  ghost predicate Found(keccak: Hash, expected: seq<ComputedAnchor>, served: ServedIndex, f: Finding) {
    var v := SidesOf(keccak, expected, served);
    match f
    case Finding(ENVELOPE_MISMATCH, Some(s)) => s in v.inconsistent
    case Finding(CHAIN_BREAK, Some(s)) => Broken(v.held, v.inconsistent, s)
    case _ => Reported(keccak, expected, served, f)
  }

  lemma {:induction false} ChainedFindings(keccak: Hash, expected: seq<ComputedAnchor>, served: ServedIndex)
    requires WellChained(keccak, served.streamId, expected)
    ensures NoDup(VerdictOf(keccak, expected, served).findings)
    ensures forall f :: f in VerdictOf(keccak, expected, served).findings <==> Found(keccak, expected, served, f)
  {
    DisclosurePassAddsNothing(keccak, expected, served);
    FindingsMeaning(keccak, expected, served, Finding(COUNT_MISMATCH, None));
    forall f ensures f in VerdictOf(keccak, expected, served).findings <==> Found(keccak, expected, served, f) {
      FindingsMeaning(keccak, expected, served, f);
      DedupMember(RowCandidates(keccak, expected, served) + Collect(ConflictPass(), served.conflicts)
                  + CountCandidates(expected, served));
      RowCandidateMeaning(keccak, expected, served, f);
      ConflictPassMeaning(served.conflicts, f);
    }
  }

  // ----- no note hides a divergence --------------------------------------------------------

  const CHAIN_CODES: set<FindingCode> := {ALTERED, GAP, CHAIN_BREAK, ENVELOPE_MISMATCH}

  ghost predicate FlaggedAt(findings: seq<Finding>, t: int) {
    exists f :: f in findings && f.code in CHAIN_CODES && f.seqNo == Some(t)
  }

  ghost predicate FlaggedUpTo(findings: seq<Finding>, s: int) {
    exists t :: t <= s && FlaggedAt(findings, t)
  }

  lemma {:induction false} DisclosedIsHighest(keccak: Hash, streamId: Bytes, expected: seq<ComputedAnchor>, t: int)
    requires WellChained(keccak, streamId, expected) && t in ByKey(AnchorSeq(), expected)
    ensures expected != [] && t <= expected[|expected| - 1].seqNo
  {
    hide ByKey, Linked;
    DisclosedAnchors(keccak, streamId, expected);
    var i :| 0 <= i < |expected| && expected[i] == ByKey(AnchorSeq(), expected)[t];
    LastIsHighest(expected, i);
  }

  lemma LastIsHighest(expected: seq<ComputedAnchor>, i: nat)
    requires Increasing(AnchorSeq(), expected) && i < |expected|
    ensures expected[i].seqNo <= expected[|expected| - 1].seqNo
  {
    var n := |expected| - 1;
    if i < n { assert AnchorSeq()(expected[i]) < AnchorSeq()(expected[n]); }
  }

  lemma {:induction false} FlagAt(keccak: Hash, expected: seq<ComputedAnchor>, served: ServedIndex, f: Finding, s: int)
    requires WellChained(keccak, served.streamId, expected)
    requires Found(keccak, expected, served, f) && f.code in CHAIN_CODES && f.seqNo.Some? && f.seqNo.value <= s
    ensures FlaggedUpTo(VerdictOf(keccak, expected, served).findings, s)
  {
    ChainedFindings(keccak, expected, served);
    assert FlaggedAt(VerdictOf(keccak, expected, served).findings, f.seqNo.value);
  }

  lemma {:induction false} FlagGap(keccak: Hash, expected: seq<ComputedAnchor>, served: ServedIndex, t: int)
    requires WellChained(keccak, served.streamId, expected) && t >= 0
    requires t in ByKey(AnchorSeq(), expected) && t !in ByKey(ServedSeq(), served.anchors)
    ensures Found(keccak, expected, served, Finding(GAP, Some(t)))
  {
    DisclosedIsHighest(keccak, served.streamId, expected, t);
  }

  /** A differing link is flagged at its position or further down: induction along the chain. */
  lemma {:induction false} DivergenceIsFlagged(keccak: Hash, expected: seq<ComputedAnchor>, served: ServedIndex, s: nat)
    requires WellChained(keccak, served.streamId, expected)
    requires var v := SidesOf(keccak, expected, served); s in v.disclosed && PrevDiffers(v, v.disclosed[s])
    ensures FlaggedUpTo(VerdictOf(keccak, expected, served).findings, s)
  {
    var v := SidesOf(keccak, expected, served);
    PrevDivergence(keccak, expected, served, s);
    if Broken(v.held, v.inconsistent, s) {
      FlagAt(keccak, expected, served, Finding(CHAIN_BREAK, Some(s)), s);
    } else if s - 1 in v.held && s - 1 !in v.altered && s - 1 !in v.inconsistent && !Broken(v.held, v.inconsistent, s - 1) {
      DivergenceIsFlagged(keccak, expected, served, s - 1);
      FlaggedHigher(VerdictOf(keccak, expected, served).findings, s - 1, s);
    } else {
      FlaggedBelow(keccak, expected, served, s);
    }
  }

  /** A position the served side cannot vouch for is flagged there. */
  lemma {:induction false} FlaggedBelow(keccak: Hash, expected: seq<ComputedAnchor>, served: ServedIndex, s: int)
    requires WellChained(keccak, served.streamId, expected) && s > 0
    requires var v := SidesOf(keccak, expected, served);
             && s - 1 in v.disclosed
             && (s - 1 !in v.held || s - 1 in v.altered || s - 1 in v.inconsistent || Broken(v.held, v.inconsistent, s - 1))
    ensures FlaggedUpTo(VerdictOf(keccak, expected, served).findings, s)
  {
    var v := SidesOf(keccak, expected, served);
    if s - 1 !in v.held {
      FlagGap(keccak, expected, served, s - 1);
      FlagAt(keccak, expected, served, Finding(GAP, Some(s - 1)), s);
    } else if s - 1 in v.altered {
      FlagAt(keccak, expected, served, Finding(ALTERED, Some(s - 1)), s);
    } else if s - 1 in v.inconsistent {
      FlagAt(keccak, expected, served, Finding(ENVELOPE_MISMATCH, Some(s - 1)), s);
    } else {
      FlagAt(keccak, expected, served, Finding(CHAIN_BREAK, Some(s - 1)), s);
    }
  }

  lemma FlaggedHigher(findings: seq<Finding>, s: int, t: int)
    requires FlaggedUpTo(findings, s) && s <= t
    ensures FlaggedUpTo(findings, t)
  {
    var u :| u <= s && FlaggedAt(findings, u);
    assert u <= t;
  }

  /** Every DOWNSTREAM note, from either chain pass, has an ALTERED, GAP, CHAIN-BREAK or ENVELOPE-MISMATCH finding
      at its position or below. */
  lemma {:induction false} NoNoteHidesADivergence(keccak: Hash, expected: seq<ComputedAnchor>, served: ServedIndex,
                                                  verdict: Verdict, note: Note)
    requires Checks(keccak, expected, served, verdict)
    requires note in verdict.notes && note.code == DOWNSTREAM
    ensures note.seqNo.Some? && FlaggedUpTo(verdict.findings, note.seqNo.value)
  {
    hide WellChained, ByKey;
    var v := SidesOf(keccak, expected, served);
    var seqs := ServedSeqs(served.anchors);
    CollectMember(DuplicateNotes(), served.anchors, note);
    CollectMember(LinkNotes(v.held, v.inconsistent), seqs, note);
    CollectMember(DisclosureNotes(v), expected, note);
    CollectMember(MalformedNotes(), served.malformed, note);
    if note in Collect(LinkNotes(v.held, v.inconsistent), seqs) {
      var i :| 0 <= i < |seqs| && note in LinkNotes(v.held, v.inconsistent)(seqs[i]);
      DownstreamOfServed(keccak, expected, served, seqs[i]);
    } else {
      var i :| 0 <= i < |expected| && note in DisclosureNotes(v)(expected[i]);
      DisclosedAnchors(keccak, served.streamId, expected);
      DivergenceIsFlagged(keccak, expected, served, expected[i].seqNo);
    }
  }

  lemma {:induction false} DownstreamOfServed(keccak: Hash, expected: seq<ComputedAnchor>, served: ServedIndex, s: int)
    requires WellChained(keccak, served.streamId, expected)
    requires RowError(served.streamId, served.anchors, |served.anchors|).None?
    requires var v := SidesOf(keccak, expected, served);
             s in v.held && Resolvable(v.held, s) && LinkDiffers(v.held, s) && !Broken(v.held, v.inconsistent, s)
    ensures FlaggedUpTo(VerdictOf(keccak, expected, served).findings, s)
  {
    hide WellChained, ByKey;
    var v := SidesOf(keccak, expected, served);
    ServedWalk(served.streamId, served.anchors);
    assert s in Elements(ServedSeqs(served.anchors));
    if s - 1 in v.inconsistent {
      FlagAt(keccak, expected, served, Finding(ENVELOPE_MISMATCH, Some(s - 1)), s);
    } else {
      FlagAt(keccak, expected, served, Finding(CHAIN_BREAK, Some(s - 1)), s);
    }
  }
}
