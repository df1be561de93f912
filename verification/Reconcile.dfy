/** The auditor's run: replay/src/reconcile.rs. */
module Reconcile {
  import opened Basics
  import opened ByteCodec
  import opened Text
  import opened Merkle
  import opened ServedLog
  import opened FieldHex
  import opened BondReplay
  import opened Records

  /** What the auditor's own node answers: the roots the contract recorded and its array. */
  datatype Chain = Chain(knownRoots: set<Digest>, commitments: seq<Digest>)

  datatype Inputs = Inputs(anchorSet: AnchorSet, manifest: Manifest, records: map<nat, DisclosedRecord>, attested: bool)

  datatype Failure = AttestationFails | ManifestMismatch(leaf: nat) | RecordFails(leaf: nat)
                   | AccountingFails(unaccounted: nat, missing: nat) | RootFails(call: nat) | StorageDiffers(leaf: nat)

  datatype RecordCheck = RecordCheck(leaf: nat, recomputed: string, served: Option<string>, pass: bool)

  datatype RootCheck = RootCheck(leafCount: nat, rebuilt: string, known: Option<bool>, pass: bool)

  datatype StorageCheck = StorageCheck(leaf: nat, served: string, onChain: string, pass: bool)

  datatype Report = Report(records: seq<RecordCheck>, unaccounted: seq<nat>, missing: seq<nat>, roots: seq<RootCheck>,
                           storage: Option<seq<StorageCheck>>, failures: seq<Failure>, passed: bool)

  datatype RunError = ServedRefused(served: ServedError) | NotAField(field: FieldError) | NoRecord(leaf: nat)
                    | ReplayStopped(replay: ReplayError) | NoStorage(leaf: nat)

  // ----- what is compared -----------------------------------------------------------------

  /** A served value in canonical form. */
  function CanonicalValue(): CommitmentEntity -> Result<string, FieldError> {
    (c: CommitmentEntity) => NormalizeBytes32Hex(c.value)
  }

  function ServedAt(served: seq<string>, leaf: nat): Option<string> {
    if leaf < |served| then Some(served[leaf]) else None
  }

  /** What the loaded record of a leaf hashes to, and what an entry accounts for. */
  type Recompute = nat -> Result<string, RunError>

  type Account = ManifestEntry -> Result<string, RunError>

  function Recomputes(note: NoteHash, records: map<nat, DisclosedRecord>): Recompute {
    (leaf: nat) =>
      if leaf !in records then Err(NoRecord(leaf))
      else match RecomputeCommitment(note, records[leaf])
        case Ok(v) => Ok(v)
        case Err(e) => Err(NotAField(e))
  }

  /** A disclosed entry accounts for its record's recomputation, a structural output for its stated value. */
  function Accounts(recompute: Recompute): Account {
    (e: ManifestEntry) =>
      match e.kind
      case Disclosed => recompute(e.leafIndex)
      case BurnOutputZero => match NormalizeBytes32Hex(e.commitment)
        case Ok(v) => Ok(v)
        case Err(x) => Err(NotAField(x))
  }

  /** The record files the first `n` entries name are there and hash. */
  ghost predicate NamedTo(recompute: Recompute, entries: seq<ManifestEntry>, n: nat)
    requires n <= |entries|
  {
    forall i {:trigger entries[i]} :: 0 <= i < n && entries[i].recordFile.Some? ==> recompute(entries[i].leafIndex).Ok?
  }

  /** The first `n` entries all say what they account for. */
  ghost predicate AccountedTo(account: Account, entries: seq<ManifestEntry>, n: nat)
    requires n <= |entries|
  {
    forall i {:trigger entries[i]} :: 0 <= i < n ==> account(entries[i]).Ok?
  }

  ghost predicate AllResolve(recompute: Recompute, entries: seq<ManifestEntry>) {
    NamedTo(recompute, entries, |entries|) && AccountedTo(Accounts(recompute), entries, |entries|)
  }

  // ----- what is reported of the records ------------------------------------------------------

  /** The entries that name a record file, in manifest order. */
  function Naming(): ManifestEntry -> seq<ManifestEntry> {
    (e: ManifestEntry) => if e.recordFile.Some? then [e] else []
  }

  /** The check of one named record: what it hashes to, what is served at its leaf, and whether they agree. */
  ghost predicate RecordChecked(check: RecordCheck, recompute: Recompute, served: seq<string>, e: ManifestEntry) {
    && check.leaf == e.leafIndex && recompute(e.leafIndex) == Ok(check.recomputed)
    && check.served == (if e.leafIndex < |served| then Some(served[e.leafIndex]) else None)
    && (check.pass <==> check.served == Some(check.recomputed))
  }

  /** One check for each of these entries, in their order. */
  ghost predicate RecordsChecked(checks: seq<RecordCheck>, recompute: Recompute, served: seq<string>, named: seq<ManifestEntry>) {
    |checks| == |named|
    && forall i {:trigger checks[i]} {:trigger named[i]} :: 0 <= i < |named| ==>
         RecordChecked(checks[i], recompute, served, named[i])
  }

  // ----- what is pushed to the failures -----------------------------------------------------

  function RecordFailures(recompute: Recompute, served: seq<string>): ManifestEntry -> seq<Failure> {
    (e: ManifestEntry) =>
      if e.recordFile.None? || recompute(e.leafIndex).Err? then []
      else
        var v, found := recompute(e.leafIndex).value, ServedAt(served, e.leafIndex);
        (if e.commitment != v then [ManifestMismatch(e.leafIndex)] else [])
        + (if found != Some(v) then [RecordFails(e.leafIndex)] else [])
  }

  /** `expected.insert` over the first `n` entries. */
  function ExpectedTo(account: Account, entries: seq<ManifestEntry>, n: nat): map<nat, string>
    requires n <= |entries|
  {
    if n == 0 then map[]
    else
      var below, v := ExpectedTo(account, entries, n - 1), account(entries[n - 1]);
      if v.Err? then below else below[entries[n - 1].leafIndex := v.value]
  }

  predicate Matches(expected: map<nat, string>, served: seq<string>, i: nat)
    requires i < |served|
  {
    i in expected && expected[i] == served[i]
  }

  /** The served leaves, below `n`, that the disclosure does not account for. */
  function UnaccountedTo(expected: map<nat, string>, served: seq<string>, n: nat): seq<nat>
    requires n <= |served|
  {
    if n == 0 then []
    else UnaccountedTo(expected, served, n - 1) + (if Matches(expected, served, n - 1) then [] else [n - 1])
  }

  /** The accounted leaves that were not served. */
  function Missing(expected: map<nat, string>, served: seq<string>): set<nat> {
    set k | k in expected && k >= |served|
  }

  function AccountingFailures(unaccounted: nat, missing: nat): seq<Failure> {
    if unaccounted == 0 && missing == 0 then [] else [AccountingFails(unaccounted, missing)]
  }

  predicate Confirms(chain: Option<Chain>, root: Fr) { chain.Some? && Word(root) in chain.value.knownRoots }

  function RootFailuresTo(chain: Option<Chain>, roots: seq<Fr>, n: nat): seq<Failure>
    requires n <= |roots|
  {
    if n == 0 then []
    else RootFailuresTo(chain, roots, n - 1) + (if Confirms(chain, roots[n - 1]) then [] else [RootFails(n - 1)])
  }

  function StorageFailuresTo(stored: seq<Digest>, served: seq<string>, n: nat): seq<Failure>
    requires n <= |served| && n <= |stored|
  {
    if n == 0 then []
    else StorageFailuresTo(stored, served, n - 1) + (if ToHex(stored[n - 1]) == served[n - 1] then [] else [StorageDiffers(n - 1)])
  }

  predicate CrossChecked(chain: Option<Chain>, verify: bool) { chain.Some? && verify }

  function ChainFailures(chain: Option<Chain>, verify: bool, roots: seq<Fr>, served: seq<string>): seq<Failure> {
    RootFailuresTo(chain, roots, |roots|)
    + (if CrossChecked(chain, verify) && |served| <= |chain.value.commitments|
       then StorageFailuresTo(chain.value.commitments, served, |served|) else [])
  }

  function DisclosureFailures(recompute: Recompute, account: Account, entries: seq<ManifestEntry>, served: seq<string>): seq<Failure> {
    var expected := ExpectedTo(account, entries, |entries|);
    Collect(RecordFailures(recompute, served), entries)
    + AccountingFailures(|UnaccountedTo(expected, served, |served|)|, |Missing(expected, served)|)
  }

  // ----- the whole run --------------------------------------------------------------------------

  /** The served values in leaf order, in canonical form; `None` if what was served has no order or no such form. */
  ghost function Canonical(anchorSet: AnchorSet): Option<seq<string>> {
    var ordered := InOrder(anchorSet.commitments);
    if ordered.None? then None
    else match AllOk(CanonicalValue(), ordered.value)
      case Ok(served) => Some(served)
      case Err(_) => None
  }

  /** Whether the run gets to its report: everything parses, every named record is there, every leaf can be read. */
  ghost predicate Completes(h: PairHash<Fr>, note: NoteHash, inputs: Inputs, chain: Option<Chain>, verify: bool) {
    && Canonical(inputs.anchorSet).Some?
    && AllResolve(Recomputes(note, inputs.records), inputs.manifest.entries)
    && RebuiltRoots(h, inputs.anchorSet, inputs.manifest.leafCountsAfterEachCall).Some?
    && (CrossChecked(chain, verify) ==> |Canonical(inputs.anchorSet).value| <= |chain.value.commitments|)
  }

  /** Every failure of a completed run, in the order the run pushes them. */
  ghost function Failures(h: PairHash<Fr>, note: NoteHash, inputs: Inputs, chain: Option<Chain>, verify: bool): seq<Failure>
    requires Completes(h, note, inputs, chain, verify)
  {
    var recompute, served := Recomputes(note, inputs.records), Canonical(inputs.anchorSet).value;
    (if inputs.attested then [] else [AttestationFails])
    + DisclosureFailures(recompute, Accounts(recompute), inputs.manifest.entries, served)
    + ChainFailures(chain, verify, RebuiltRoots(h, inputs.anchorSet, inputs.manifest.leafCountsAfterEachCall).value, served)
  }

  // ----- the parts of the run --------------------------------------------------------------------

  /** One disclosed record against the anchor at its leaf and against the manifest's own claim. */
  method CheckRecord(recompute: Recompute, served: seq<string>, entry: ManifestEntry)
    returns (r: Result<(seq<RecordCheck>, seq<Failure>), RunError>)
    ensures r.Ok? <==> entry.recordFile.None? || recompute(entry.leafIndex).Ok?
    ensures r.Ok? ==> RecordsChecked(r.value.0, recompute, served, Naming()(entry))
    ensures r.Ok? ==> r.value.1 == RecordFailures(recompute, served)(entry)
  {
    if entry.recordFile.None? { return Ok(([], [])); }
    var recomputed := recompute(entry.leafIndex);
    if recomputed.Err? { return Err(recomputed.error); }
    var found := ServedAt(served, entry.leafIndex);
    var failures: seq<Failure> := [];
    if entry.commitment != recomputed.value { failures := failures + [ManifestMismatch(entry.leafIndex)]; }
    if found != Some(recomputed.value) { failures := failures + [RecordFails(entry.leafIndex)]; }
    var check := RecordCheck(entry.leafIndex, recomputed.value, found, found == Some(recomputed.value));
    assert RecordFailures(recompute, served)(entry) == failures;
    return Ok(([check], failures));
  }

  lemma RecordsJoin(checks: seq<RecordCheck>, more: seq<RecordCheck>, recompute: Recompute, served: seq<string>,
                    named: seq<ManifestEntry>, added: seq<ManifestEntry>)
    requires RecordsChecked(checks, recompute, served, named) && RecordsChecked(more, recompute, served, added)
    ensures RecordsChecked(checks + more, recompute, served, named + added)
  {
    hide RecordChecked;
    forall i | 0 <= i < |named + added| ensures RecordChecked((checks + more)[i], recompute, served, (named + added)[i]) {
      if i >= |named| {
        assert (checks + more)[i] == more[i - |checks|] && (named + added)[i] == added[i - |named|];
      }
    }
  }

  /** Every disclosed record in manifest order. */
  method CheckRecords(recompute: Recompute, served: seq<string>, entries: seq<ManifestEntry>, before: seq<Failure>)
    returns (r: Result<(seq<RecordCheck>, seq<Failure>), RunError>)
    ensures r.Ok? <==> NamedTo(recompute, entries, |entries|)
    ensures r.Ok? ==> RecordsChecked(r.value.0, recompute, served, Collect(Naming(), entries))
    ensures r.Ok? ==> r.value.1 == before + Collect(RecordFailures(recompute, served), entries)
  {
    hide RecordsChecked, RecordFailures, Naming;
    var checks: seq<RecordCheck> := [];
    var failures := before;
    AfterEnds(before, RecordFailures(recompute, served), entries);
    NothingChecked(recompute, served);
    for i := 0 to |entries|
      invariant RecordsChecked(checks, recompute, served, CollectTo(Naming(), entries, i))
      invariant failures == After(before, RecordFailures(recompute, served), entries, i)
      invariant NamedTo(recompute, entries, i)
    {
      AfterStep(before, RecordFailures(recompute, served), entries, i);
      var checked := CheckRecord(recompute, served, entries[i]);
      if checked.Err? { return Err(checked.error); }
      RecordsJoin(checks, checked.value.0, recompute, served, CollectTo(Naming(), entries, i), Naming()(entries[i]));
      checks, failures := checks + checked.value.0, failures + checked.value.1;
    }
    return Ok((checks, failures));
  }

  lemma NothingChecked(recompute: Recompute, served: seq<string>)
    ensures RecordsChecked([], recompute, served, [])
  {}

  method BuildExpected(account: Account, entries: seq<ManifestEntry>) returns (r: Result<map<nat, string>, RunError>)
    ensures r.Ok? <==> AccountedTo(account, entries, |entries|)
    ensures r.Ok? ==> r.value == ExpectedTo(account, entries, |entries|)
  {
    var expected: map<nat, string> := map[];
    for i := 0 to |entries|
      invariant expected == ExpectedTo(account, entries, i) && AccountedTo(account, entries, i)
    {
      var value := account(entries[i]);
      if value.Err? { return Err(value.error); }
      expected := expected[entries[i].leafIndex := value.value];
    }
    return Ok(expected);
  }

  /** Both directions: served but not accounted for, and accounted for but not served. */
  method Cover(expected: map<nat, string>, served: seq<string>) returns (unaccounted: seq<nat>, missing: seq<nat>)
    ensures unaccounted == UnaccountedTo(expected, served, |served|)
    ensures KeysOf(missing, Missing(expected, served))
  {
    unaccounted := [];
    for i := 0 to |served|
      invariant unaccounted == UnaccountedTo(expected, served, i)
    {
      if !Matches(expected, served, i) { unaccounted := unaccounted + [i]; }
    }
    missing := AscendingKeys(Missing(expected, served));
  }

  /** One check a rebuilt root. */
  ghost predicate RootsChecked(checks: seq<RootCheck>, chain: Option<Chain>, roots: seq<Fr>, counts: seq<nat>, n: nat)
    requires n <= |roots| == |counts|
  {
    |checks| == n && forall i {:trigger checks[i]} :: 0 <= i < n ==>
      && checks[i].rebuilt == FrToHex(roots[i]) && checks[i].leafCount == counts[i]
      && checks[i].known == (if chain.Some? then Some(Word(roots[i]) in chain.value.knownRoots) else None)
      && checks[i].pass == (checks[i].known == Some(true))
  }

  method CheckRoots(chain: Option<Chain>, roots: seq<Fr>, counts: seq<nat>, before: seq<Failure>)
    returns (checks: seq<RootCheck>, failures: seq<Failure>)
    requires |counts| == |roots|
    ensures RootsChecked(checks, chain, roots, counts, |roots|)
    ensures failures == before + RootFailuresTo(chain, roots, |roots|)
  {
    hide FrToHex, ToHex, Word;
    checks, failures := [], before;
    for i := 0 to |roots|
      invariant failures == before + RootFailuresTo(chain, roots, i)
      invariant RootsChecked(checks, chain, roots, counts, i)
    {
      var known := if chain.Some? then Some(Word(roots[i]) in chain.value.knownRoots) else None;
      var pass := known == Some(true);
      if !pass { failures := failures + [RootFails(i)]; }
      checks := checks + [RootCheck(counts[i], FrToHex(roots[i]), known, pass)];
    }
  }

  ghost predicate StorageChecked(checks: seq<StorageCheck>, stored: seq<Digest>, served: seq<string>, n: nat)
    requires n <= |stored| && n <= |served|
  {
    |checks| == n && forall i {:trigger checks[i]} :: 0 <= i < n ==>
      checks[i] == StorageCheck(i, served[i], ToHex(stored[i]), ToHex(stored[i]) == served[i])
  }

  /** Every served leaf against the contract's storage. */
  method CheckStorage(stored: seq<Digest>, served: seq<string>, before: seq<Failure>)
    returns (r: Result<(seq<StorageCheck>, seq<Failure>), RunError>)
    ensures r.Ok? <==> |served| <= |stored|
    ensures r.Ok? ==> r.value.1 == before + StorageFailuresTo(stored, served, |served|)
    ensures r.Ok? ==> StorageChecked(r.value.0, stored, served, |served|)
  {
    hide ToHex;
    var checks: seq<StorageCheck> := [];
    var failures := before;
    for i := 0 to |served|
      invariant i <= |stored| && failures == before + StorageFailuresTo(stored, served, i)
      invariant StorageChecked(checks, stored, served, i)
    {
      if i >= |stored| { return Err(NoStorage(i)); }
      var same := ToHex(stored[i]) == served[i];
      if !same { failures := failures + [StorageDiffers(i)]; }
      checks := checks + [StorageCheck(i, served[i], ToHex(stored[i]), same)];
    }
    return Ok((checks, failures));
  }

  // ----- the run -----------------------------------------------------------------------------------

  /** The record checks and the accounting. */
  method CheckDisclosure(recompute: Recompute, account: Account, served: seq<string>, entries: seq<ManifestEntry>,
                         before: seq<Failure>) returns (r: Result<Report, RunError>)
    ensures r.Ok? <==> NamedTo(recompute, entries, |entries|) && AccountedTo(account, entries, |entries|)
    ensures r.Ok? ==> r.value.failures == before + DisclosureFailures(recompute, account, entries, served)
    ensures r.Ok? ==> RecordsChecked(r.value.records, recompute, served, Collect(Naming(), entries))
    ensures r.Ok? ==> var expected := ExpectedTo(account, entries, |entries|);
                      && r.value.unaccounted == UnaccountedTo(expected, served, |served|)
                      && KeysOf(r.value.missing, Missing(expected, served))
  {
    var checked := CheckRecords(recompute, served, entries, before);
    if checked.Err? { return Err(checked.error); }
    var expected := BuildExpected(account, entries);
    if expected.Err? { return Err(expected.error); }
    var unaccounted, missing := Cover(expected.value, served);
    var failures := checked.value.1;
    if !(unaccounted == [] && missing == []) { failures := failures + [AccountingFails(|unaccounted|, |missing|)]; }
    return Ok(Report(checked.value.0, unaccounted, missing, [], None, failures, false));
  }

  /** The root replay against the chain, the optional storage check, and the result. */
  method CheckChain(chain: Option<Chain>, verify: bool, replay: Replay, served: seq<string>, report: Report)
    returns (r: Result<Report, RunError>)
    requires |replay.counts| == |replay.roots|
    ensures r.Ok? <==> (CrossChecked(chain, verify) ==> |served| <= |chain.value.commitments|)
    ensures r.Ok? ==> r.value.failures == report.failures + ChainFailures(chain, verify, replay.roots, served)
    ensures r.Ok? ==> r.value.passed == (r.value.failures == [])
    ensures r.Ok? ==> RootsChecked(r.value.roots, chain, replay.roots, replay.counts, |replay.roots|)
    ensures r.Ok? ==> (r.value.storage.Some? <==> CrossChecked(chain, verify))
    ensures r.Ok? && r.value.storage.Some? ==>
              StorageChecked(r.value.storage.value, chain.value.commitments, served, |served|)
    ensures r.Ok? ==> r.value.records == report.records && r.value.unaccounted == report.unaccounted
                      && r.value.missing == report.missing
  {
    var roots, failures := CheckRoots(chain, replay.roots, replay.counts, report.failures);
    var storage: Option<seq<StorageCheck>> := None;
    if chain.Some? && verify {
      var stored := CheckStorage(chain.value.commitments, served, failures);
      if stored.Err? { return Err(stored.error); }
      storage := Some(stored.value.0);
      failures := stored.value.1;
    }
    return Ok(report.(roots := roots, storage := storage, failures := failures, passed := failures == []));
  }

  /** The report of a completed run: what it says of the records, the accounting, the roots and the storage, and every
      failure. */
  ghost predicate IsReport(h: PairHash<Fr>, note: NoteHash, inputs: Inputs, chain: Option<Chain>, verify: bool, report: Report)
    requires Completes(h, note, inputs, chain, verify)
  {
    var recompute, served := Recomputes(note, inputs.records), Canonical(inputs.anchorSet).value;
    var entries := inputs.manifest.entries;
    var expected := ExpectedTo(Accounts(recompute), entries, |entries|);
    var roots := RebuiltRoots(h, inputs.anchorSet, inputs.manifest.leafCountsAfterEachCall).value;
    var counts := Boundaries(Counts(inputs.anchorSet.calls).value, inputs.manifest.leafCountsAfterEachCall);
    && report.failures == Failures(h, note, inputs, chain, verify)
    && report.passed == (report.failures == [])
    && RecordsChecked(report.records, recompute, served, Collect(Naming(), entries))
    && report.unaccounted == UnaccountedTo(expected, served, |served|)
    && KeysOf(report.missing, Missing(expected, served))
    && RootsChecked(report.roots, chain, roots, counts, |roots|)
    && (report.storage.Some? <==> CrossChecked(chain, verify))
    && (report.storage.Some? ==> StorageChecked(report.storage.value, chain.value.commitments, served, |served|))
  }

  /** Nothing short-circuits but an error: every check is made and every failure listed. */
  method Run(h: PairHash<Fr>, note: NoteHash, inputs: Inputs, chain: Option<Chain>, verify: bool)
    returns (r: Result<Report, RunError>)
    ensures r.Ok? <==> Completes(h, note, inputs, chain, verify)
    ensures r.Ok? ==> IsReport(h, note, inputs, chain, verify, r.value)
  {
    var failures := if inputs.attested then [] else [AttestationFails];
    var ordered := OrderedCommitments(inputs.anchorSet.commitments);
    if ordered.Err? { return Err(ServedRefused(ordered.error)); }
    var served := CollectOk(CanonicalValue(), ordered.value);
    if served.Err? { return Err(NotAField(served.error)); }
    var recompute := Recomputes(note, inputs.records);
    var disclosure := CheckDisclosure(recompute, Accounts(recompute), served.value, inputs.manifest.entries, failures);
    if disclosure.Err? { return Err(disclosure.error); }
    var replay := ReplayRoots(h, inputs.anchorSet, inputs.manifest.leafCountsAfterEachCall);
    if replay.Err? { return Err(ReplayStopped(replay.error)); }
    r := CheckChain(chain, verify, replay.value, served.value, disclosure.value);
  }
}
