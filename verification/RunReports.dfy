/** What the report of an audit says, check by check, and how that fits its failures. */
module RunReports {
  import opened Basics
  import opened ByteCodec
  import opened Text
  import opened Merkle
  import opened ServedLog
  import opened FieldHex
  import opened CanonicalHex
  import opened BondReplay
  import opened Records
  import opened Reconcile
  import opened ReconcileTheorems

  // ----- what a record is recomputed to --------------------------------------------------------

  /** A record whose owner spells the element `o` is recomputed to the canonical spelling of the note hash of its five fields,
      in the order the circuit takes them; any other owner is an error of the record. */
  lemma {:induction false} RecordHashesItsFields(note: NoteHash, r: DisclosedRecord, o: Fr)
    ensures FrFromHex(r.owner) == Ok(o) ==>
              RecomputeCommitment(note, r) == Ok(FrToHex(note(r.value, r.salt, o, r.assetId, r.maturityDate)))
    ensures RecomputeCommitment(note, r.(owner := FrToHex(o))) ==
              Ok(FrToHex(note(r.value, r.salt, o, r.assetId, r.maturityDate)))
    ensures RecomputeCommitment(note, r).Err? <==> FrFromHex(r.owner).Err?
  {
    hide FrFromHex, FrToHex;
    HexReadsBack(o);
  }

  // ----- what the served log is read as -------------------------------------------------------------

  /** The served values compared are those served for leaf 0, 1, ..., each normalised. */
  lemma {:induction false} ServedIsNormalised(anchorSet: AnchorSet) returns (xs: seq<CommitmentEntity>)
    requires Canonical(anchorSet).Some?
    ensures Ordered(anchorSet.commitments, xs) && |xs| == |Canonical(anchorSet).value|
    ensures forall i :: 0 <= i < |xs| ==> NormalizeBytes32Hex(xs[i].value) == Ok(Canonical(anchorSet).value[i])
  {
    hide NormalizeBytes32Hex, Ordered;
    xs := InOrder(anchorSet.commitments).value;
    AllOkIs(CanonicalValue(), xs, |xs|);
    forall i | 0 <= i < |xs| ensures NormalizeBytes32Hex(xs[i].value) == Ok(Canonical(anchorSet).value[i]) {
      assert CanonicalValue()(xs[i]) == Ok(Canonical(anchorSet).value[i]);
    }
  }

  /** A replay that does not stop rebuilds, over the numbers the leaves in that order spell, the root behind each served
      total, or behind each of the manifest's where no call was served. */
  lemma {:induction false} ReplayReads(h: PairHash<Fr>, anchorSet: AnchorSet, manifest: seq<nat>)
    returns (xs: seq<CommitmentEntity>, leaves: seq<Fr>, totals: seq<nat>)
    requires RebuiltRoots(h, anchorSet, manifest).Some?
    ensures Ordered(anchorSet.commitments, xs) && |leaves| == |xs|
    ensures forall i :: 0 <= i < |xs| ==> FrFromHex(xs[i].value) == Ok(leaves[i])
    ensures Counts(anchorSet.calls) == Some(if anchorSet.calls == [] then [] else totals)
    ensures anchorSet.calls == [] ==> totals == manifest
    ensures var roots := RebuiltRoots(h, anchorSet, manifest).value;
            && |roots| == |totals|
            && forall i :: 0 <= i < |totals| ==> 0 < totals[i] <= |leaves| && roots[i] == Root(h, leaves[..totals[i]])
  {
    hide FrFromHex, Ordered, Root;
    xs := InOrder(anchorSet.commitments).value;
    AllOkIs(ServedNumber(), xs, |xs|);
    leaves := AllOk(ServedNumber(), xs).value;
    var counts := Counts(anchorSet.calls).value;
    CountsLength(anchorSet.calls);
    totals := Boundaries(counts, manifest);
    forall i | 0 <= i < |xs| ensures FrFromHex(xs[i].value) == Ok(leaves[i]) { assert ServedNumber()(xs[i]) == Ok(leaves[i]); }
  }

  lemma {:induction false} CountsLength(calls: seq<CallEntity>)
    ensures Counts(calls).Some? ==> |Counts(calls).value| == |calls|
  {
    ByIdOrders();
    SortSorts(ById(), calls);
  }

  // ----- which failures a part of the run can list --------------------------------------------

  lemma {:induction false} RootFailsAt(chain: Option<Chain>, roots: seq<Fr>, n: nat, i: nat)
    requires n <= |roots|
    ensures RootFails(i) in RootFailuresTo(chain, roots, n) <==> i < n && !Confirms(chain, roots[i])
  {
    if n > 0 { RootFailsAt(chain, roots, n - 1, i); }
  }

  lemma {:induction false} OnlyRootsFail(chain: Option<Chain>, roots: seq<Fr>, n: nat, f: Failure)
    requires n <= |roots| && f in RootFailuresTo(chain, roots, n)
    ensures f.RootFails?
  {
    if f !in RootFailuresTo(chain, roots, n - 1) {} else { OnlyRootsFail(chain, roots, n - 1, f); }
  }

  lemma {:induction false} StorageDiffersAt(stored: seq<Digest>, served: seq<string>, n: nat, i: nat)
    requires n <= |served| && n <= |stored|
    ensures StorageDiffers(i) in StorageFailuresTo(stored, served, n) <==> i < n && ToHex(stored[i]) != served[i]
  {
    if n > 0 { StorageDiffersAt(stored, served, n - 1, i); }
  }

  lemma {:induction false} OnlyStorageDiffers(stored: seq<Digest>, served: seq<string>, n: nat, f: Failure)
    requires n <= |served| && n <= |stored| && f in StorageFailuresTo(stored, served, n)
    ensures f.StorageDiffers?
  {
    if f in StorageFailuresTo(stored, served, n - 1) { OnlyStorageDiffers(stored, served, n - 1, f); }
  }

  lemma {:induction false} OnlyRecordsFail(recompute: Recompute, served: seq<string>, entries: seq<ManifestEntry>, f: Failure)
    requires f in Collect(RecordFailures(recompute, served), entries)
    ensures f.ManifestMismatch? || f.RecordFails?
  {
    CollectMember(RecordFailures(recompute, served), entries, f);
    var i :| 0 <= i < |entries| && f in RecordFailures(recompute, served)(entries[i]);
    EntryFailures(recompute, served, entries[i]);
  }

  /** Where in the list of failures each kind comes from. */
  lemma {:induction false} FailureOrigin(h: PairHash<Fr>, note: NoteHash, inputs: Inputs, chain: Option<Chain>, verify: bool,
                                         f: Failure)
    requires Completes(h, note, inputs, chain, verify)
    ensures var recompute, served := Recomputes(note, inputs.records), Canonical(inputs.anchorSet).value;
            var roots := Rebuilt(h, inputs).value;
            f in Failures(h, note, inputs, chain, verify) <==>
              match f
              case AttestationFails => !inputs.attested
              case ManifestMismatch(_) => f in Collect(RecordFailures(recompute, served), inputs.manifest.entries)
              case RecordFails(_) => f in Collect(RecordFailures(recompute, served), inputs.manifest.entries)
              case AccountingFails(u, m) =>
                var expected := ExpectedTo(Accounts(recompute), inputs.manifest.entries, |inputs.manifest.entries|);
                u == |UnaccountedTo(expected, served, |served|)| && m == |Missing(expected, served)| && u + m > 0
              case RootFails(i) => i < |roots| && !Confirms(chain, roots[i])
              case StorageDiffers(i) =>
                CrossChecked(chain, verify) && i < |served| && ToHex(chain.value.commitments[i]) != served[i]
  {
    hide RecordFailures, ExpectedTo, UnaccountedTo, Missing, RootFailuresTo, StorageFailuresTo, Confirms, ToHex, Canonical,
         AllResolve, Collect;
    var recompute, served := Recomputes(note, inputs.records), Canonical(inputs.anchorSet).value;
    var roots, entries := Rebuilt(h, inputs).value, inputs.manifest.entries;
    if f in Collect(RecordFailures(recompute, served), entries) { OnlyRecordsFail(recompute, served, entries, f); }
    if f in RootFailuresTo(chain, roots, |roots|) { OnlyRootsFail(chain, roots, |roots|, f); }
    if f.RootFails? { RootFailsAt(chain, roots, |roots|, f.call); }
    if CrossChecked(chain, verify) {
      if f in StorageFailuresTo(chain.value.commitments, served, |served|) {
        OnlyStorageDiffers(chain.value.commitments, served, |served|, f);
      }
      if f.StorageDiffers? { StorageDiffersAt(chain.value.commitments, served, |served|, f.leaf); }
    }
  }

  // ----- the order of the failures ---------------------------------------------------------------

  function Stage(f: Failure): nat {
    match f
    case AttestationFails => 0
    case ManifestMismatch(_) => 1
    case RecordFails(_) => 1
    case AccountingFails(_, _) => 2
    case RootFails(_) => 3
    case StorageDiffers(_) => 4
  }

  /** Stage by stage: the attestation, the records, the accounting, the roots call by call, the storage leaf by leaf. */
  predicate Precedes(f: Failure, g: Failure) {
    || Stage(f) < Stage(g)
    || (f.RootFails? && g.RootFails? && f.call < g.call)
    || (f.StorageDiffers? && g.StorageDiffers? && f.leaf < g.leaf)
    || (Stage(f) == Stage(g) == 1)
  }

  function InStages(): (Failure, Failure) -> bool { (f: Failure, g: Failure) => Precedes(f, g) }

  /** A stretch of the failures: in order, and of the stages from `low` to `high`. */
  ghost predicate Staged(fs: seq<Failure>, low: nat, high: nat) {
    SortedBy(InStages(), fs) && forall f :: f in fs ==> low <= Stage(f) <= high
  }

  lemma {:induction false} StagesJoin(a: seq<Failure>, b: seq<Failure>, low: nat, mid: nat, high: nat)
    requires Staged(a, low, mid) && Staged(b, mid + 1, high) && low <= mid + 1 <= high
    ensures Staged(a + b, low, high)
  {
    hide SortedBy;
    SortedJoin(InStages(), a, b);
  }

  lemma AtMostOne(fs: seq<Failure>, stage: nat)
    requires |fs| <= 1 && forall f :: f in fs ==> Stage(f) == stage
    ensures Staged(fs, stage, stage)
  {}

  lemma {:induction false} RootsStaged(chain: Option<Chain>, roots: seq<Fr>, n: nat)
    requires n <= |roots|
    ensures Staged(RootFailuresTo(chain, roots, n), 3, 3)
    ensures forall f :: f in RootFailuresTo(chain, roots, n) ==> f.RootFails? && f.call < n
  {
    if n > 0 {
      RootsStaged(chain, roots, n - 1);
      if !Confirms(chain, roots[n - 1]) { SortedJoin(InStages(), RootFailuresTo(chain, roots, n - 1), [RootFails(n - 1)]); }
    }
  }

  lemma {:induction false} StorageStaged(stored: seq<Digest>, served: seq<string>, n: nat)
    requires n <= |served| && n <= |stored|
    ensures Staged(StorageFailuresTo(stored, served, n), 4, 4)
    ensures forall f :: f in StorageFailuresTo(stored, served, n) ==> f.StorageDiffers? && f.leaf < n
  {
    hide ToHex;
    if n > 0 {
      StorageStaged(stored, served, n - 1);
      if ToHex(stored[n - 1]) != served[n - 1] {
        SortedJoin(InStages(), StorageFailuresTo(stored, served, n - 1), [StorageDiffers(n - 1)]);
      }
    }
  }

  lemma {:induction false} RecordsStaged(recompute: Recompute, served: seq<string>, entries: seq<ManifestEntry>)
    ensures Staged(Collect(RecordFailures(recompute, served), entries), 1, 1)
  {
    hide RecordFailures, Collect;
    var fs := Collect(RecordFailures(recompute, served), entries);
    forall f | f in fs ensures Stage(f) == 1 { OnlyRecordsFail(recompute, served, entries, f); }
    forall i, j | 0 <= i < j < |fs| ensures InStages()(fs[i], fs[j]) { assert fs[i] in fs && fs[j] in fs; }
  }

  /** A completed run lists its failures stage by stage, each root and each storage leaf at most once and by rising number. */
  lemma {:induction false} FailuresInOrder(h: PairHash<Fr>, note: NoteHash, inputs: Inputs, chain: Option<Chain>, verify: bool)
    requires Completes(h, note, inputs, chain, verify)
    ensures var failures := Failures(h, note, inputs, chain, verify);
            forall i, j :: 0 <= i < j < |failures| ==> Precedes(failures[i], failures[j])
  {
    hide RecordFailures, ExpectedTo, UnaccountedTo, Missing, RootFailuresTo, StorageFailuresTo, Confirms, ToHex, Canonical,
         AllResolve, Collect, Staged, RebuiltRoots;
    var recompute, served := Recomputes(note, inputs.records), Canonical(inputs.anchorSet).value;
    var roots, entries := Rebuilt(h, inputs).value, inputs.manifest.entries;
    var expected := ExpectedTo(Accounts(recompute), entries, |entries|);
    var attestation: seq<Failure> := if inputs.attested then [] else [AttestationFails];
    var records := Collect(RecordFailures(recompute, served), entries);
    var accounting := AccountingFailures(|UnaccountedTo(expected, served, |served|)|, |Missing(expected, served)|);
    var unknown := RootFailuresTo(chain, roots, |roots|);
    var differing := if CrossChecked(chain, verify) then StorageFailuresTo(chain.value.commitments, served, |served|) else [];
    AtMostOne(attestation, 0);
    RecordsStaged(recompute, served, entries);
    AtMostOne(accounting, 2);
    RootsStaged(chain, roots, |roots|);
    if CrossChecked(chain, verify) { StorageStaged(chain.value.commitments, served, |served|); } else { AtMostOne(differing, 4); }
    StagesJoin(attestation, records, 0, 0, 1);
    StagesJoin(attestation + records, accounting, 0, 1, 2);
    StagesJoin(attestation + records + accounting, unknown, 0, 2, 3);
    StagesJoin(attestation + records + accounting + unknown, differing, 0, 3, 4);
    assert Failures(h, note, inputs, chain, verify) == attestation + records + accounting + unknown + differing;
    StagedPairs(Failures(h, note, inputs, chain, verify), 0, 4);
  }

  lemma StagedPairs(fs: seq<Failure>, low: nat, high: nat)
    requires Staged(fs, low, high)
    ensures forall i, j :: 0 <= i < j < |fs| ==> Precedes(fs[i], fs[j])
  {
    forall i, j | 0 <= i < j < |fs| ensures Precedes(fs[i], fs[j]) { assert InStages()(fs[i], fs[j]); }
  }

  // ----- the record checks ---------------------------------------------------------------------

  /** `at` are the places among the first `n` of the entries that name a file, in ascending order. */
  ghost predicate IsPlaces(entries: seq<ManifestEntry>, n: nat, at: seq<nat>)
    requires n <= |entries|
  {
    && (forall j, k :: 0 <= j < k < |at| ==> at[j] < at[k])
    && (forall i: nat :: i in at <==> i < n && entries[i].recordFile.Some?)
  }

  ghost predicate NamedThere(entries: seq<ManifestEntry>, named: seq<ManifestEntry>, at: seq<nat>) {
    |named| == |at| && forall k {:trigger at[k]} :: 0 <= k < |at| ==> at[k] < |entries| && named[k] == entries[at[k]]
  }

  lemma {:induction false} NamedAt(entries: seq<ManifestEntry>, n: nat) returns (at: seq<nat>)
    requires n <= |entries|
    ensures IsPlaces(entries, n, at) && NamedThere(entries, CollectTo(Naming(), entries, n), at)
  {
    at := [];
    if n > 0 {
      var below := NamedAt(entries, n - 1);
      at := below + if entries[n - 1].recordFile.Some? then [n - 1] else [];
      NextPlace(entries, n - 1, n, below, at, CollectTo(Naming(), entries, n - 1));
    }
  }

  lemma NextPlace(entries: seq<ManifestEntry>, k: nat, n: nat, below: seq<nat>, at: seq<nat>, named: seq<ManifestEntry>)
    requires k + 1 == n <= |entries| && IsPlaces(entries, k, below) && NamedThere(entries, named, below)
    requires at == below + if entries[k].recordFile.Some? then [k] else []
    ensures IsPlaces(entries, n, at) && NamedThere(entries, named + Naming()(entries[k]), at)
  {
    forall i | 0 <= i < |below| ensures below[i] < k { assert below[i] in below; }
    forall i: nat ensures i in at <==> i < n && entries[i].recordFile.Some? {
      assert i in at <==> i in below || (entries[k].recordFile.Some? && i == k);
    }
  }

  /** The check of the entry at place `i`: its leaf, what its record hashes to, what is served there, and whether that is
      the same. */
  ghost predicate CheckOf(check: RecordCheck, recompute: Recompute, served: seq<string>, entries: seq<ManifestEntry>, i: nat) {
    i < |entries| &&
      var leaf := entries[i].leafIndex;
      && check.leaf == leaf && recompute(leaf) == Ok(check.recomputed)
      && check.served == (if leaf < |served| then Some(served[leaf]) else None)
      && (check.pass <==> leaf < |served| && recompute(leaf) == Ok(served[leaf]))
  }

  /** There is one check for each entry that names a file, in manifest order. */
  lemma {:induction false} OneCheckARecord(h: PairHash<Fr>, note: NoteHash, inputs: Inputs, chain: Option<Chain>, verify: bool,
                                           report: Report) returns (at: seq<nat>)
    requires Completes(h, note, inputs, chain, verify) && IsReport(h, note, inputs, chain, verify, report)
    ensures IsPlaces(inputs.manifest.entries, |inputs.manifest.entries|, at) && |at| == |report.records|
    ensures forall k :: 0 <= k < |at| ==>
              CheckOf(report.records[k], Recomputes(note, inputs.records), Canonical(inputs.anchorSet).value,
                      inputs.manifest.entries, at[k])
  {
    hide Canonical, Failures, Recomputes, UnaccountedTo, KeysOf, RootsChecked, StorageChecked, Naming, IsPlaces;
    var entries := inputs.manifest.entries;
    at := NamedAt(entries, |entries|);
    var named := Collect(Naming(), entries);
    forall k | 0 <= k < |at|
      ensures CheckOf(report.records[k], Recomputes(note, inputs.records), Canonical(inputs.anchorSet).value, entries, at[k])
    {
      assert named[k] == entries[at[k]];
      assert RecordChecked(report.records[k], Recomputes(note, inputs.records), Canonical(inputs.anchorSet).value, named[k]);
    }
  }

  /** A record check passes exactly if no failure names its leaf as a failing record. */
  lemma {:induction false} RecordChecksAgree(h: PairHash<Fr>, note: NoteHash, inputs: Inputs, chain: Option<Chain>, verify: bool,
                                             report: Report, k: nat)
    requires Completes(h, note, inputs, chain, verify) && IsReport(h, note, inputs, chain, verify, report)
    requires Consistent(inputs.manifest.entries) && k < |report.records|
    ensures report.records[k].pass <==> RecordFails(report.records[k].leaf) !in report.failures
  {
    var recompute, served := Recomputes(note, inputs.records), Canonical(inputs.anchorSet).value;
    var entries := inputs.manifest.entries;
    var at := OneCheckARecord(h, note, inputs, chain, verify, report);
    var i := at[k];
    assert i in at && CheckOf(report.records[k], recompute, served, entries, i);
    var f := RecordFails(entries[i].leafIndex);
    FailureOrigin(h, note, inputs, chain, verify, f);
    RecordFailsExactly(recompute, served, entries, i);
  }

  lemma {:induction false} RecordFailsExactly(recompute: Recompute, served: seq<string>, entries: seq<ManifestEntry>, i: nat)
    requires Consistent(entries) && i < |entries| && entries[i].recordFile.Some? && recompute(entries[i].leafIndex).Ok?
    ensures RecordFails(entries[i].leafIndex) in Collect(RecordFailures(recompute, served), entries) <==>
              !(entries[i].leafIndex < |served| && recompute(entries[i].leafIndex) == Ok(served[entries[i].leafIndex]))
  {
    var f, fails := RecordFails(entries[i].leafIndex), RecordFailures(recompute, served);
    CollectMember(fails, entries, f);
    if f in Collect(fails, entries) {
      var j :| 0 <= j < |entries| && f in fails(entries[j]);
      EntryFailures(recompute, served, entries[j]);
      OneEntryALeaf(entries, entries[i], entries[j]);
    }
    RecordFailsAlone(recompute, served, entries[i]);
  }

  lemma RecordFailsAlone(recompute: Recompute, served: seq<string>, e: ManifestEntry)
    requires e.recordFile.Some? && recompute(e.leafIndex).Ok?
    ensures RecordFails(e.leafIndex) in RecordFailures(recompute, served)(e) <==>
              !(e.leafIndex < |served| && recompute(e.leafIndex) == Ok(served[e.leafIndex]))
  {}

  // ----- the other checks -----------------------------------------------------------------------

  /** A root check says what the chain answered, and passes exactly if its call is not among the failures. */
  lemma {:induction false} RootChecksAgree(h: PairHash<Fr>, note: NoteHash, inputs: Inputs, chain: Option<Chain>, verify: bool,
                                           report: Report, i: nat)
    requires Completes(h, note, inputs, chain, verify) && IsReport(h, note, inputs, chain, verify, report)
    ensures |report.roots| == |Rebuilt(h, inputs).value|
    ensures i < |report.roots| ==>
              && (report.roots[i].pass <==> RootFails(i) !in report.failures)
              && report.roots[i].known ==
                   (if chain.Some? then Some(Word(Rebuilt(h, inputs).value[i]) in chain.value.knownRoots) else None)
  {
    FailureOrigin(h, note, inputs, chain, verify, RootFails(i));
  }

  /** A storage check passes exactly if its leaf is not among the failures. */
  lemma {:induction false} StorageChecksAgree(h: PairHash<Fr>, note: NoteHash, inputs: Inputs, chain: Option<Chain>, verify: bool,
                                              report: Report, i: nat)
    requires Completes(h, note, inputs, chain, verify) && IsReport(h, note, inputs, chain, verify, report)
    requires report.storage.Some?
    ensures CrossChecked(chain, verify) && |report.storage.value| == |Canonical(inputs.anchorSet).value|
    ensures i < |report.storage.value| ==>
              var check := report.storage.value[i];
              && check.leaf == i && check.served == Canonical(inputs.anchorSet).value[i]
              && (check.pass <==> StorageDiffers(i) !in report.failures)
  {
    FailureOrigin(h, note, inputs, chain, verify, StorageDiffers(i));
  }

  // ----- the accounting ---------------------------------------------------------------------------

  /** Entry `e` accounts for `value` at its leaf: by its record if it is disclosed, by what it states if it is structural. */
  ghost predicate SaysOf(recompute: Recompute, e: ManifestEntry, value: string) {
    match e.kind
    case Disclosed => recompute(e.leafIndex) == Ok(value)
    case BurnOutputZero => NormalizeBytes32Hex(e.commitment) == Ok(value)
  }

  ghost predicate Accounted(recompute: Recompute, entries: seq<ManifestEntry>, leaf: nat, value: string) {
    exists i :: 0 <= i < |entries| && entries[i].leafIndex == leaf && SaysOf(recompute, entries[i], value)
  }

  /** Unaccounted are the served leaves of which no entry says what is served, missing the listed leaves not served, both
      in ascending order. */
  lemma {:induction false} AccountingMeans(h: PairHash<Fr>, note: NoteHash, inputs: Inputs, chain: Option<Chain>, verify: bool,
                                           report: Report, leaf: nat)
    requires Completes(h, note, inputs, chain, verify) && IsReport(h, note, inputs, chain, verify, report)
    requires Consistent(inputs.manifest.entries)
    ensures var recompute, served := Recomputes(note, inputs.records), Canonical(inputs.anchorSet).value;
            var entries := inputs.manifest.entries;
            && (leaf in report.unaccounted <==> leaf < |served| && !Accounted(recompute, entries, leaf, served[leaf]))
            && (leaf in report.missing <==> |served| <= leaf < |entries|)
  {
    hide Canonical, Recomputes, RecordsChecked, RootsChecked, StorageChecked, Failures, Collect;
    var recompute, served := Recomputes(note, inputs.records), Canonical(inputs.anchorSet).value;
    var entries, account := inputs.manifest.entries, Accounts(Recomputes(note, inputs.records));
    var expected := ExpectedTo(account, entries, |entries|);
    ExpectedIs(account, entries, |entries|);
    UnaccountedAre(expected, served, |served|);
    ExpectedKeys(account, entries, expected, leaf);
    if leaf < |served| { MatchesIfSaid(recompute, entries, expected, served, leaf); }
  }

  lemma {:induction false} MatchesIfSaid(recompute: Recompute, entries: seq<ManifestEntry>, expected: map<nat, string>,
                                         served: seq<string>, leaf: nat)
    requires Consistent(entries) && IsExpected(Accounts(recompute), entries, |entries|, expected) && leaf < |served|
    ensures Matches(expected, served, leaf) <==> Accounted(recompute, entries, leaf, served[leaf])
  {
    hide NormalizeBytes32Hex;
    ExpectedKeys(Accounts(recompute), entries, expected, leaf);
    if leaf < |entries| {
      var e := EntryAt(entries, leaf);
      var k :| 0 <= k < |entries| && entries[k] == e;
      assert Files(Accounts(recompute), expected, entries[k]);
      assert Matches(expected, served, leaf) <==> SaysOf(recompute, entries[k], served[leaf]);
      forall i | 0 <= i < |entries| && entries[i].leafIndex == leaf ensures entries[i] == e { OneEntryALeaf(entries, e, entries[i]); }
    } else {
      forall i | 0 <= i < |entries| ensures entries[i].leafIndex != leaf { assert entries[i] in entries; }
    }
  }

  // ----- passing and altered runs -------------------------------------------------------------------

  /** A report that passes has no check that does not, and nothing unaccounted or missing. */
  lemma {:induction false} PassingReport(h: PairHash<Fr>, note: NoteHash, inputs: Inputs, chain: Option<Chain>, verify: bool,
                                         report: Report)
    requires Completes(h, note, inputs, chain, verify) && IsReport(h, note, inputs, chain, verify, report)
    requires Consistent(inputs.manifest.entries) && report.passed
    ensures forall k :: 0 <= k < |report.records| ==> report.records[k].pass
    ensures forall i :: 0 <= i < |report.roots| ==> report.roots[i].pass
    ensures report.storage.Some? ==> forall i :: 0 <= i < |report.storage.value| ==> report.storage.value[i].pass
    ensures report.unaccounted == [] && report.missing == []
  {
    forall k | 0 <= k < |report.records| ensures report.records[k].pass {
      RecordChecksAgree(h, note, inputs, chain, verify, report, k);
    }
    forall i | 0 <= i < |report.roots| ensures report.roots[i].pass {
      RootChecksAgree(h, note, inputs, chain, verify, report, i);
    }
    if report.storage.Some? {
      forall i | 0 <= i < |report.storage.value| ensures report.storage.value[i].pass {
        StorageChecksAgree(h, note, inputs, chain, verify, report, i);
      }
    }
    FailureOrigin(h, note, inputs, chain, verify, AccountingFails(|report.unaccounted|, |report.missing|));
  }

  /** Where records are altered under a passing run, the checks of exactly the altered leaves do not pass, and exactly these
      leaves are unaccounted for. */
  lemma {:induction false} AlteredReport(h: PairHash<Fr>, note: NoteHash, inputs: Inputs, chain: Option<Chain>, verify: bool,
                                         records: map<nat, DisclosedRecord>, report: Report)
    requires Consistent(inputs.manifest.entries) && AllResolve(Recomputes(note, records), inputs.manifest.entries)
    requires Completes(h, note, inputs, chain, verify) && Failures(h, note, inputs, chain, verify) == []
    requires Completes(h, note, inputs.(records := records), chain, verify)
    requires IsReport(h, note, inputs.(records := records), chain, verify, report)
    ensures var altered := AlteredLeaves(Recomputes(note, inputs.records), Recomputes(note, records), inputs.manifest.entries);
            && (forall k :: 0 <= k < |report.records| ==> (report.records[k].pass <==> report.records[k].leaf !in altered))
            && (forall leaf :: leaf in altered <==> leaf in report.unaccounted)
            && report.missing == []
  {
    var was, now, served := Recomputes(note, inputs.records), Recomputes(note, records), Canonical(inputs.anchorSet).value;
    var altered, entries := AlteredLeaves(was, now, inputs.manifest.entries), inputs.manifest.entries;
    AlteredRecordsAreNamed(h, note, inputs, chain, verify, records);
    forall k | 0 <= k < |report.records| ensures report.records[k].pass <==> report.records[k].leaf !in altered {
      RecordChecksAgree(h, note, inputs.(records := records), chain, verify, report, k);
    }
    PassIsExact(h, note, inputs, chain, verify);
    AlteredAre(was, now, entries, served);
  }

  lemma {:induction false} AlteredAre(was: Recompute, now: Recompute, entries: seq<ManifestEntry>, served: seq<string>)
    requires Consistent(entries) && AllResolve(now, entries) && Covers(Accounts(was), entries, served)
    ensures var expected := ExpectedTo(Accounts(now), entries, |entries|);
            && (forall leaf :: leaf in AlteredLeaves(was, now, entries) <==> leaf in UnaccountedTo(expected, served, |served|))
            && |Missing(expected, served)| == 0
  {
    var expected := ExpectedTo(Accounts(now), entries, |entries|);
    AlteredAccounting(was, now, entries, served);
    ExpectedIs(Accounts(now), entries, |entries|);
    UnaccountedAre(expected, served, |served|);
    AlteredBelow(was, now, entries);
    forall leaf: nat ensures leaf in AlteredLeaves(was, now, entries) <==> leaf in UnaccountedTo(expected, served, |served|) {
      if leaf < |served| { AlteredUnaccounted(was, now, entries, served, expected, leaf); }
    }
  }
}
