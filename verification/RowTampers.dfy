/** Served rows whose digests are not those of their fields. */
module RowTampers {
  import opened Basics
  import opened ByteCodec
  import opened Envelope
  import opened AnchorStream
  import opened ServedIndexes
  import opened Verdicts
  import opened VerdictMeaning
  import opened VerdictTheorems

  /** An anchor's row with whatever envelope digest the server states at its position. */
  ghost function MisstatedRow(a: ComputedAnchor, stated: int -> Bytes): Row {
    Row(a.seqNo, a.ciphertextDigest, a.prevEnvelopeDigest, Some(stated(a.seqNo)))
  }

  ghost function MisstatedRows(published: seq<ComputedAnchor>, stated: int -> Bytes): set<Row> {
    set i | 0 <= i < |published| :: MisstatedRow(published[i], stated)
  }

  /** The positions at which the digest stated is another. */
  ghost function Misstatements(published: seq<ComputedAnchor>, stated: int -> Bytes): set<int> {
    set s | 0 <= s < |published| && published[s].envelopeDigest != Some(stated(s))
  }

  lemma {:induction false} MisstatedRowsDistinct(published: seq<ComputedAnchor>, stated: int -> Bytes)
    requires FromZero(published)
    ensures OnePerPosition(MisstatedRows(published, stated)) && |MisstatedRows(published, stated)| == |published|
  {
    var rows := MisstatedRows(published, stated);
    var list := seq(|published|, i requires 0 <= i < |published| => MisstatedRow(published[i], stated));
    assert forall i :: 0 <= i < |list| ==> list[i].seqNo == i;
    forall i, j | 0 <= i < j < |list| ensures list[i] != list[j] { assert list[i].seqNo == i && list[j].seqNo == j; }
    DistinctCount(list);
    forall r ensures r in Elements(list) <==> r in rows {
      if r in rows {
        var i :| 0 <= i < |published| && MisstatedRow(published[i], stated) == r;
        assert list[i] == r;
      }
    }
    assert Elements(list) == rows;
  }

  /** What the checker holds: the stated row at every position. */
  lemma {:induction false} MisstatedHeld(keccak: Hash, served: ServedIndex, published: seq<ComputedAnchor>, stated: int -> Bytes)
    requires Complete(keccak, served.streamId, published) && Serves(served, MisstatedRows(published, stated))
    ensures var held := ByKey(ServedSeq(), served.anchors);
            && (forall s :: s in held <==> 0 <= s < |published|)
            && (forall s :: 0 <= s < |published| ==> ServedRow()(held[s]) == MisstatedRow(published[s], stated))
    ensures forall i :: 0 <= i < |served.anchors| ==>
              0 <= served.anchors[i].seqNo < |published|
              && ServedRow()(served.anchors[i]) == MisstatedRow(published[served.anchors[i].seqNo], stated)
    ensures |served.anchors| == |published|
  {
    hide ByKey, WellChained, Serves, OnePerPosition;
    var rows, held := MisstatedRows(published, stated), ByKey(ServedSeq(), served.anchors);
    MisstatedRowsDistinct(published, stated);
    HeldFromRows(served, rows);
    forall s | 0 <= s < |published| ensures s in held && ServedRow()(held[s]) == MisstatedRow(published[s], stated) {
      assert MisstatedRow(published[s], stated) in rows;
    }
    forall s | s in held ensures 0 <= s < |published| {
      var i :| 0 <= i < |published| && MisstatedRow(published[i], stated) == ServedRow()(held[s]);
    }
    forall k | 0 <= k < |served.anchors|
      ensures 0 <= served.anchors[k].seqNo < |published|
      ensures ServedRow()(served.anchors[k]) == MisstatedRow(published[served.anchors[k].seqNo], stated)
    {
      var i :| 0 <= i < |published| && MisstatedRow(published[i], stated) == ServedRow()(served.anchors[k]);
    }
  }

  /** The inconsistent rows are those with a misstated digest. */
  lemma {:induction false} MisstatedAreInconsistent(keccak: Hash, served: ServedIndex, published: seq<ComputedAnchor>,
                                                    stated: int -> Bytes)
    requires Complete(keccak, served.streamId, published) && Serves(served, MisstatedRows(published, stated))
    ensures RowError(served.streamId, served.anchors, |served.anchors|).None?
    ensures InconsistentSeqs(keccak, served.streamId, served.anchors, |served.anchors|) == Misstatements(published, stated)
  {
    hide ByKey, WellChained, Serves, RowError, MisstatedRows;
    MisstatedHeld(keccak, served, published, stated);
    var rows := served.anchors;
    forall i | 0 <= i < |rows|
      ensures Encodable(RowFields(served.streamId, rows[i]))
      ensures RowInconsistent(keccak, served.streamId, rows[i]) <==> rows[i].seqNo in Misstatements(published, stated)
    {
      CompleteLinks(keccak, served.streamId, published, rows[i].seqNo);
      assert ServedRow()(rows[i]) == MisstatedRow(published[rows[i].seqNo], stated);
    }
    NoRowError(served.streamId, rows, |rows|);
    SeqsOfMisstated(keccak, served, published, stated);
  }

  lemma {:induction false} SeqsOfMisstated(keccak: Hash, served: ServedIndex, published: seq<ComputedAnchor>, stated: int -> Bytes)
    requires Complete(keccak, served.streamId, published) && Serves(served, MisstatedRows(published, stated))
    requires forall i :: 0 <= i < |served.anchors| ==>
               (RowInconsistent(keccak, served.streamId, served.anchors[i]) <==>
                  served.anchors[i].seqNo in Misstatements(published, stated))
    ensures InconsistentSeqs(keccak, served.streamId, served.anchors, |served.anchors|) == Misstatements(published, stated)
  {
    hide ByKey, WellChained, Serves, MisstatedRows, RowInconsistent, Misstatements;
    MisstatedHeld(keccak, served, published, stated);
    HeldRows(served.anchors);
    var wrong := InconsistentSeqs(keccak, served.streamId, served.anchors, |served.anchors|);
    forall s ensures s in wrong <==> s in Misstatements(published, stated) {
      if s in Misstatements(published, stated) {
        MisstatedInRange(published, stated, s);
        var held := ByKey(ServedSeq(), served.anchors);
        var i :| 0 <= i < |served.anchors| && served.anchors[i] == held[s];
        assert served.anchors[i].seqNo == s;
      }
    }
  }

  lemma MisstatedInRange(published: seq<ComputedAnchor>, stated: int -> Bytes, s: int)
    requires s in Misstatements(published, stated)
    ensures 0 <= s < |published|
  {}

  /** A link rests on the digest stated below it, and where that is misstated the row below is not trusted. */
  lemma {:induction false} NoBreaks(keccak: Hash, served: ServedIndex, published: seq<ComputedAnchor>, stated: int -> Bytes, s: int)
    requires Complete(keccak, served.streamId, published) && Serves(served, MisstatedRows(published, stated))
    ensures !Broken(ByKey(ServedSeq(), served.anchors), Misstatements(published, stated), s)
  {
    hide ByKey, WellChained, Serves, MisstatedRows;
    var held, wrong := ByKey(ServedSeq(), served.anchors), Misstatements(published, stated);
    MisstatedHeld(keccak, served, published, stated);
    if s in held {
      CompleteLinks(keccak, served.streamId, published, s);
      assert ServedRow()(held[s]) == MisstatedRow(published[s], stated);
      if s > 0 {
        assert ServedRow()(held[s - 1]) == MisstatedRow(published[s - 1], stated);
        assert LinkDiffers(held, s) ==> s - 1 in wrong;
        assert Trusted(held, wrong, s - 1) ==> s - 1 !in wrong;
      }
    }
  }

  lemma {:induction false} MisstatedFindingAt(keccak: Hash, expected: seq<ComputedAnchor>, served: ServedIndex,
                                              stated: int -> Bytes, code: FindingCode, s: int)
    requires Complete(keccak, served.streamId, expected) && Serves(served, MisstatedRows(expected, stated))
    ensures Found(keccak, expected, served, Finding(code, Some(s))) <==>
              (code == ENVELOPE_MISMATCH && s in Misstatements(expected, stated)) || Finding(code, Some(s)) in Contests(served)
  {
    hide WellChained, ByKey, Contests, Broken, Misstatements, MisstatedRows, Serves;
    var v := SidesOf(keccak, expected, served);
    MisstatedHeld(keccak, served, expected, stated);
    MisstatedAreInconsistent(keccak, served, expected, stated);
    CompleteDisclosed(keccak, served.streamId, expected);
    ContestsMember(served, Finding(code, Some(s)));
    match code {
      case ALTERED => AlteredExactly(keccak, expected, served, s);
        if s in v.held { assert ServedRow()(v.held[s]) == MisstatedRow(expected[s], stated); }
      case CHAIN_BREAK => NoBreaks(keccak, served, expected, stated, s);
      case _ =>
    }
  }

  lemma {:induction false} MisstatedFindings(keccak: Hash, expected: seq<ComputedAnchor>, served: ServedIndex, stated: int -> Bytes)
    requires Complete(keccak, served.streamId, expected) && Serves(served, MisstatedRows(expected, stated))
    ensures ListsOnly(VerdictOf(keccak, expected, served).findings,
                      At(ENVELOPE_MISMATCH, Misstatements(expected, stated)) + Contests(served))
  {
    hide WellChained, ByKey, Contests, At, Found, Misstatements, MisstatedRows, Serves, VerdictOf;
    var wrong := Misstatements(expected, stated);
    ChainedFindings(keccak, expected, served);
    forall f ensures Found(keccak, expected, served, f) <==> f in At(ENVELOPE_MISMATCH, wrong) + Contests(served) {
      AtMember(ENVELOPE_MISMATCH, wrong, f);
      ContestsMember(served, f);
      match f {
        case Finding(code, Some(s)) => MisstatedFindingAt(keccak, expected, served, stated, code, s);
        case Finding(code, None) => NothingUnplaced(keccak, expected, served, stated, f);
      }
    }
  }

  lemma {:induction false} NothingUnplaced(keccak: Hash, expected: seq<ComputedAnchor>, served: ServedIndex, stated: int -> Bytes, f: Finding)
    requires Complete(keccak, served.streamId, expected) && Serves(served, MisstatedRows(expected, stated)) && f.seqNo.None?
    ensures !Found(keccak, expected, served, f)
  {
    MisstatedHeld(keccak, served, expected, stated);
  }

  lemma {:induction false} MisstatedReport(verdict: Verdict, wrong: set<int>, served: ServedIndex)
    requires Exits(verdict) && ListsOnly(verdict.findings, At(ENVELOPE_MISMATCH, wrong) + Contests(served))
    ensures Reports(Ok(verdict), At(ENVELOPE_MISMATCH, wrong) + Contests(served), if ConflictPositions(served) == {} then 7 else 6)
  {
    hide Reports, Exits, ListsOnly, At;
    var all, contests := At(ENVELOPE_MISMATCH, wrong) + Contests(served), ConflictPositions(served);
    OnlyOneCode(ENVELOPE_MISMATCH, wrong);
    OnlyOneCode(CONFLICT, contests);
    if contests == {} {
      NothingAt(CONFLICT);
      assert all == At(ENVELOPE_MISMATCH, wrong);
      ReportsExactly(verdict, all, ENVELOPE_MISMATCH);
    } else {
      var s := AnyOf(contests);
      AtMember(CONFLICT, contests, Finding(CONFLICT, Some(s)));
      ReportsExactly(verdict, all, CONFLICT);
    }
  }

  lemma NothingAt(code: FindingCode)
    ensures At(code, {}) == {}
  {}

  /** A whole stream with the right fields but other digests at some positions: one ENVELOPE-MISMATCH at each of them beside
      the conflicts served, and no CHAIN-BREAK at the links that rest on them; exit 7, or 6 where conflicts are served. */
  lemma {:induction false} MisstatedDigestsAreNamed(keccak: Hash, expected: seq<ComputedAnchor>, served: ServedIndex,
                                                    stated: int -> Bytes)
    requires Complete(keccak, served.streamId, expected) && Serves(served, MisstatedRows(expected, stated))
    ensures Reports(Compare(keccak, expected, served),
                    At(ENVELOPE_MISMATCH, Misstatements(expected, stated)) + Contests(served),
                    if ConflictPositions(served) == {} then 7 else 6)
  {
    hide WellChained, Contests, Reports, Exits, ListsOnly, Complete, Serves, MisstatedRows, Misstatements, VerdictOf, At,
         ConflictPositions, RowError;
    MisstatedAreInconsistent(keccak, served, expected, stated);
    MisstatedFindings(keccak, expected, served, stated);
    VerdictExit(keccak, expected, served);
    MisstatedReport(VerdictOf(keccak, expected, served), Misstatements(expected, stated), served);
  }
}
