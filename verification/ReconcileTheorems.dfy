/** What a pass means, and what an altered record is reported as. */
module ReconcileTheorems {
  import opened Basics
  import opened ByteCodec
  import opened Text
  import opened Merkle
  import opened ServedLog
  import opened FieldHex
  import opened CanonicalHex
  import opened BondMapping
  import opened BondLog
  import opened BondContract
  import opened BondReplay
  import opened Records
  import opened Reconcile

  // ----- empty lists of failures --------------------------------------------------------

  lemma {:induction false} RootFailuresEmpty(chain: Option<Chain>, roots: seq<Fr>, n: nat)
    requires n <= |roots|
    ensures RootFailuresTo(chain, roots, n) == [] <==> forall i {:trigger roots[i]} :: 0 <= i < n ==> Confirms(chain, roots[i])
  {
    if n > 0 { RootFailuresEmpty(chain, roots, n - 1); }
  }

  lemma {:induction false} StorageFailuresEmpty(stored: seq<Digest>, served: seq<string>, n: nat)
    requires n <= |served| && n <= |stored|
    ensures StorageFailuresTo(stored, served, n) == [] <==>
              forall i {:trigger served[i]} :: 0 <= i < n ==> ToHex(stored[i]) == served[i]
  {
    if n > 0 { StorageFailuresEmpty(stored, served, n - 1); }
  }

  lemma {:induction false} UnaccountedAre(expected: map<nat, string>, served: seq<string>, n: nat)
    requires n <= |served|
    ensures var u := UnaccountedTo(expected, served, n);
            && (forall i: nat :: i in u <==> i < n && !Matches(expected, served, i))
            && NoDup(u)
  {
    if n > 0 { UnaccountedAre(expected, served, n - 1); }
  }

  // ----- the expected map ------------------------------------------------------------------

  /** The map of the first `n` entries: each leaf with what its entry accounts for, and no other. */
  ghost predicate IsExpected(account: Account, entries: seq<ManifestEntry>, n: nat, m: map<nat, string>)
    requires n <= |entries|
  {
    && (forall i {:trigger entries[i]} :: 0 <= i < n ==> Files(account, m, entries[i]))
    && (forall k :: k in m ==> IsLeafOf(entries, n, k))
  }

  ghost predicate Files(account: Account, m: map<nat, string>, e: ManifestEntry) {
    e.leafIndex in m && account(e) == Ok(m[e.leafIndex])
  }

  ghost predicate IsLeafOf(entries: seq<ManifestEntry>, n: nat, k: nat)
    requires n <= |entries|
  {
    exists i :: 0 <= i < n && entries[i].leafIndex == k
  }

  lemma {:induction false} ExpectedIs(account: Account, entries: seq<ManifestEntry>, n: nat)
    requires n <= |entries| && NoDup(Map(EntryLeaf(), entries)) && AccountedTo(account, entries, n)
    ensures IsExpected(account, entries, n, ExpectedTo(account, entries, n))
  {
    hide IsExpected;
    if n == 0 {
      NothingExpected(account, entries);
    } else {
      assert account(entries[n - 1]).Ok?;
      ExpectedIs(account, entries, n - 1);
      ExpectedGrows(account, entries, n - 1, ExpectedTo(account, entries, n - 1), account(entries[n - 1]).value);
    }
  }

  lemma NothingExpected(account: Account, entries: seq<ManifestEntry>)
    ensures IsExpected(account, entries, 0, map[])
  {}

  lemma ExpectedGrows(account: Account, entries: seq<ManifestEntry>, n: nat, m: map<nat, string>, v: string)
    requires n < |entries| && NoDup(Map(EntryLeaf(), entries)) && IsExpected(account, entries, n, m)
    requires account(entries[n]) == Ok(v)
    ensures IsExpected(account, entries, n + 1, m[entries[n].leafIndex := v])
  {
    var m', leaves := m[entries[n].leafIndex := v], Map(EntryLeaf(), entries);
    forall i | 0 <= i < n + 1 ensures Files(account, m', entries[i]) {
      if i < n {
        assert leaves[i] != leaves[n];
        assert Files(account, m, entries[i]);
      }
    }
    forall k | k in m' ensures IsLeafOf(entries, n + 1, k) {
      if k in m {
        assert IsLeafOf(entries, n, k);
        var i :| 0 <= i < n && entries[i].leafIndex == k;
        assert entries[i].leafIndex == k;
      } else {
        assert entries[n].leafIndex == k;
      }
    }
  }

  /** For a consistent manifest its leaves are exactly those below the count. */
  lemma {:induction false} ExpectedKeys(account: Account, entries: seq<ManifestEntry>, m: map<nat, string>, k: nat)
    requires Consistent(entries) && IsExpected(account, entries, |entries|, m)
    ensures k in m <==> k < |entries|
  {
    if k in m {
      assert IsLeafOf(entries, |entries|, k);
      var i :| 0 <= i < |entries| && entries[i].leafIndex == k;
      assert entries[i] in entries;
    }
    if k < |entries| {
      var e := EntryAt(entries, k);
      var i :| 0 <= i < |entries| && entries[i] == e;
      assert Files(account, m, entries[i]);
    }
  }

  // ----- both directions ---------------------------------------------------------------------

  /** Entry `e` accounts for exactly the value served at its leaf. */
  ghost predicate CoversEntry(account: Account, served: seq<string>, e: ManifestEntry) {
    e.leafIndex < |served| && account(e) == Ok(served[e.leafIndex])
  }

  /** The disclosure and the served log cover each other: as many entries as leaves, and every entry fits its leaf. */
  ghost predicate Covers(account: Account, entries: seq<ManifestEntry>, served: seq<string>) {
    && |entries| == |served|
    && forall i {:trigger entries[i]} :: 0 <= i < |entries| ==> CoversEntry(account, served, entries[i])
  }

  lemma {:induction false} AccountingIsCovering(account: Account, entries: seq<ManifestEntry>, served: seq<string>)
    requires Consistent(entries) && AccountedTo(account, entries, |entries|)
    ensures var expected := ExpectedTo(account, entries, |entries|);
            |UnaccountedTo(expected, served, |served|)| == 0 && |Missing(expected, served)| == 0
            <==> Covers(account, entries, served)
  {
    var expected := ExpectedTo(account, entries, |entries|);
    ExpectedIs(account, entries, |entries|);
    if |UnaccountedTo(expected, served, |served|)| == 0 && |Missing(expected, served)| == 0 {
      AccountedCovers(account, entries, served, expected);
    }
    if Covers(account, entries, served) { CoveredAccounts(account, entries, served, expected); }
  }

  lemma {:induction false} AccountedCovers(account: Account, entries: seq<ManifestEntry>, served: seq<string>, expected: map<nat, string>)
    requires Consistent(entries) && IsExpected(account, entries, |entries|, expected)
    requires UnaccountedTo(expected, served, |served|) == [] && Missing(expected, served) == {}
    ensures Covers(account, entries, served)
  {
    UnaccountedAre(expected, served, |served|);
    forall i: nat | i < |served| ensures Matches(expected, served, i) {
      assert i !in UnaccountedTo(expected, served, |served|);
    }
    forall i | 0 <= i < |entries| ensures CoversEntry(account, served, entries[i]) {
      var leaf := entries[i].leafIndex;
      assert Files(account, expected, entries[i]) && leaf !in Missing(expected, served);
      assert Matches(expected, served, leaf);
    }
    ExpectedKeys(account, entries, expected, |served|);
    ExpectedKeys(account, entries, expected, |entries|);
    assert |served| in expected ==> |served| in Missing(expected, served);
  }

  lemma {:induction false} CoveredAccounts(account: Account, entries: seq<ManifestEntry>, served: seq<string>, expected: map<nat, string>)
    requires Consistent(entries) && IsExpected(account, entries, |entries|, expected)
    requires Covers(account, entries, served)
    ensures UnaccountedTo(expected, served, |served|) == [] && Missing(expected, served) == {}
  {
    UnaccountedAre(expected, served, |served|);
    forall i: nat | i < |served| ensures Matches(expected, served, i) {
      var e := EntryAt(entries, i);
      var k :| 0 <= k < |entries| && entries[k] == e;
      assert Files(account, expected, entries[k]) && CoversEntry(account, served, entries[k]);
    }
    forall k | k in expected ensures k < |served| { ExpectedKeys(account, entries, expected, k); }
    FirstMember(UnaccountedTo(expected, served, |served|));
  }

  // ----- a pass, exactly ------------------------------------------------------------------------

  /** Each disclosed entry states its record's commitment, in canonical form. */
  ghost predicate StatesRecords(recompute: Recompute, entries: seq<ManifestEntry>) {
    forall i {:trigger entries[i]} :: 0 <= i < |entries| && entries[i].kind == Disclosed ==>
      recompute(entries[i].leafIndex) == Ok(entries[i].commitment)
  }

  ghost predicate AllConfirmed(chain: Option<Chain>, roots: seq<Fr>) {
    forall i {:trigger roots[i]} :: 0 <= i < |roots| ==> Confirms(chain, roots[i])
  }

  ghost predicate StoredAsServed(chain: Chain, served: seq<string>) {
    |served| <= |chain.commitments| && forall i {:trigger served[i]} :: 0 <= i < |served| ==> ToHex(chain.commitments[i]) == served[i]
  }

  lemma {:induction false} RecordsPass(recompute: Recompute, entries: seq<ManifestEntry>, served: seq<string>)
    requires Consistent(entries) && NamedTo(recompute, entries, |entries|) && Covers(Accounts(recompute), entries, served)
    ensures Collect(RecordFailures(recompute, served), entries) == [] <==> StatesRecords(recompute, entries)
  {
    CollectEmpty(RecordFailures(recompute, served), entries, |entries|);
    forall i | 0 <= i < |entries|
      ensures RecordFailures(recompute, served)(entries[i]) == [] <==>
                (entries[i].kind == Disclosed ==> recompute(entries[i].leafIndex) == Ok(entries[i].commitment))
    {
      assert entries[i] in entries && CoversEntry(Accounts(recompute), served, entries[i]);
      OneRecordPasses(recompute, entries[i], served);
    }
  }

  lemma OneRecordPasses(recompute: Recompute, e: ManifestEntry, served: seq<string>)
    requires FileFits(e) && CoversEntry(Accounts(recompute), served, e)
    ensures RecordFailures(recompute, served)(e) == [] <==>
              (e.kind == Disclosed ==> recompute(e.leafIndex) == Ok(e.commitment))
  {
    assert e.kind == Disclosed ==> recompute(e.leafIndex) == Ok(served[e.leafIndex]);
  }

  lemma {:induction false} DisclosurePasses(recompute: Recompute, entries: seq<ManifestEntry>, served: seq<string>)
    requires Consistent(entries) && AllResolve(recompute, entries)
    ensures DisclosureFailures(recompute, Accounts(recompute), entries, served) == [] <==>
              Covers(Accounts(recompute), entries, served) && StatesRecords(recompute, entries)
  {
    AccountingIsCovering(Accounts(recompute), entries, served);
    if Covers(Accounts(recompute), entries, served) { RecordsPass(recompute, entries, served); }
  }

  lemma {:induction false} ChainPasses(chain: Option<Chain>, verify: bool, roots: seq<Fr>, served: seq<string>)
    requires CrossChecked(chain, verify) ==> |served| <= |chain.value.commitments|
    ensures ChainFailures(chain, verify, roots, served) == [] <==>
              AllConfirmed(chain, roots) && (CrossChecked(chain, verify) ==> StoredAsServed(chain.value, served))
  {
    RootFailuresEmpty(chain, roots, |roots|);
    if CrossChecked(chain, verify) { StorageFailuresEmpty(chain.value.commitments, served, |served|); }
  }

  ghost function Rebuilt(h: PairHash<Fr>, inputs: Inputs): Option<seq<Fr>> {
    RebuiltRoots(h, inputs.anchorSet, inputs.manifest.leafCountsAfterEachCall)
  }

  /** A completed run over a consistent manifest passes if and only if the attestation passed, the disclosure and the
      served log cover each other, each disclosed entry states its record's commitment, the chain confirms every rebuilt
      root, and the storage check, where asked for, agrees at every leaf. */
  lemma {:induction false} PassIsExact(h: PairHash<Fr>, note: NoteHash, inputs: Inputs, chain: Option<Chain>, verify: bool)
    requires Completes(h, note, inputs, chain, verify) && Consistent(inputs.manifest.entries)
    ensures var recompute, served := Recomputes(note, inputs.records), Canonical(inputs.anchorSet).value;
            Failures(h, note, inputs, chain, verify) == [] <==>
              && inputs.attested
              && Covers(Accounts(recompute), inputs.manifest.entries, served)
              && StatesRecords(recompute, inputs.manifest.entries)
              && AllConfirmed(chain, Rebuilt(h, inputs).value)
              && (CrossChecked(chain, verify) ==> StoredAsServed(chain.value, served))
  {
    var recompute, served := Recomputes(note, inputs.records), Canonical(inputs.anchorSet).value;
    DisclosurePasses(recompute, inputs.manifest.entries, served);
    ChainPasses(chain, verify, Rebuilt(h, inputs).value, served);
  }

  /** Without a chain a run passes exactly if there is no call boundary to rebuild a root at, served or listed, and the
      disclosure fits what was served. */
  lemma {:induction false} NothingToConfirm(h: PairHash<Fr>, note: NoteHash, inputs: Inputs, verify: bool)
    requires Completes(h, note, inputs, None, verify) && Consistent(inputs.manifest.entries)
    ensures var recompute, served := Recomputes(note, inputs.records), Canonical(inputs.anchorSet).value;
            Failures(h, note, inputs, None, verify) == [] <==>
              && inputs.attested
              && Covers(Accounts(recompute), inputs.manifest.entries, served)
              && StatesRecords(recompute, inputs.manifest.entries)
              && inputs.anchorSet.calls == [] && inputs.manifest.leafCountsAfterEachCall == []
  {
    PassIsExact(h, note, inputs, None, verify);
    NoBoundaries(h, inputs);
    var roots := Rebuilt(h, inputs).value;
    if AllConfirmed(None, roots) && roots != [] { assert Confirms(None, roots[0]); }
  }

  lemma NoBoundaries(h: PairHash<Fr>, inputs: Inputs)
    requires Rebuilt(h, inputs).Some?
    ensures Rebuilt(h, inputs).value == [] <==>
              inputs.anchorSet.calls == [] && inputs.manifest.leafCountsAfterEachCall == []
  {
    var calls := inputs.anchorSet.calls;
    ByIdOrders();
    SortSorts(ById(), calls);
    assert |multiset(CallsInOrder(calls))| == |CallsInOrder(calls)| && |multiset(calls)| == |calls|;
  }

  // ----- an honest audit -----------------------------------------------------------------------------

  function WordHex(): Digest -> string { (d: Digest) => ToHex(d) }

  /** A complete and truthful disclosure of the contract's array. */
  ghost predicate Discloses(recompute: Recompute, entries: seq<ManifestEntry>, words: seq<Digest>) {
    && Consistent(entries) && AllResolve(recompute, entries)
    && Covers(Accounts(recompute), entries, Map(WordHex(), words)) && StatesRecords(recompute, entries)
  }

  lemma ServedHexOfLeaf(log: seq<Commitment>, i: nat)
    requires i < |log| && InField(Map(LeafValue(), log))
    ensures CanonicalValue()(Map(LeafRow(), FiledRows(log))[i]) == Ok(WordHex()(Map(LeafValue(), log)[i]))
  {
    assert FromBigEndian(Map(LeafValue(), log)[i]) < ORDER;
    WordReads(log[i].value);
  }

  lemma {:induction false} ServedHexOfLog(log: seq<Commitment>)
    requires InField(Map(LeafValue(), log))
    ensures AllOk(CanonicalValue(), Map(LeafRow(), FiledRows(log))) == Ok(Map(WordHex(), Map(LeafValue(), log)))
  {
    var xs, hex := Map(LeafRow(), FiledRows(log)), Map(WordHex(), Map(LeafValue(), log));
    forall i | 0 <= i < |xs| ensures CanonicalValue()(xs[i]) == Ok(hex[i]) { ServedHexOfLeaf(log, i); }
    AllOkAs(CanonicalValue(), xs, hex);
  }

  lemma {:induction false} HonestServedHex(env: Env, h: PairHash<Fr>, calls: seq<BondCall>, c: Contract, anchorSet: AnchorSet)
    requires Played(WordHash(h), calls, |calls|) == Some(c) && InField(c.commitments)
    requires ServesStore(anchorSet, BondMapping.StoreAfter(env, calls, |calls|)) && WithinPage(anchorSet)
    ensures Canonical(anchorSet) == Some(Map(WordHex(), c.commitments))
  {
    var log := LeafLog(calls, |calls|);
    IndexIsLogged(env, calls, |calls|);
    LeavesAreCommitments(WordHash(h), calls, |calls|);
    forall i | 0 <= i < |log| ensures log[i].leafIndex == i { LeafPositions(calls, |calls|, i); }
    HonestPageHex(BondMapping.StoreAfter(env, calls, |calls|).commitments, log, anchorSet);
  }

  lemma HonestPageHex(m: map<string, Commitment>, log: seq<Commitment>, anchorSet: AnchorSet)
    requires IsTable(m, log) && Positioned(log) && InField(Map(LeafValue(), log))
    requires ListsAll(m, anchorSet.commitments, LeafRow()) && |anchorSet.commitments| < PAGE_LIMIT
    ensures Canonical(anchorSet) == Some(Map(WordHex(), Map(LeafValue(), log)))
  {
    PagedLeavesInOrder(m, log, anchorSet.commitments);
    ServedHexOfLog(log);
  }

  /** End to end: the contract's history, honestly indexed and served in any order, and a truthful disclosure of it, pass
      the audit against the contract's own state, with or without the storage check. */
  lemma {:induction false} HonestAuditPasses(env: Env, h: PairHash<Fr>, note: NoteHash, calls: seq<BondCall>, c: Contract,
                                             inputs: Inputs, verify: bool)
    requires calls != [] && Played(WordHash(h), calls, |calls|) == Some(c) && InField(c.commitments)
    requires ServesStore(inputs.anchorSet, BondMapping.StoreAfter(env, calls, |calls|)) && WithinPage(inputs.anchorSet)
    requires Discloses(Recomputes(note, inputs.records), inputs.manifest.entries, c.commitments) && inputs.attested
    ensures var chain := Some(Chain(Elements(c.roots), c.commitments));
            Completes(h, note, inputs, chain, verify) && Failures(h, note, inputs, chain, verify) == []
  {
    var chain := Chain(Elements(c.roots), c.commitments);
    HonestServedHex(env, h, calls, c, inputs.anchorSet);
    ReplayRebuildsRoots(env, h, calls, c, inputs.anchorSet, inputs.manifest.leafCountsAfterEachCall);
    HonestRootsConfirmed(c, chain, Rebuilt(h, inputs).value);
    HonestStorage(chain);
    PassIsExact(h, note, inputs, Some(chain), verify);
  }

  /** A consistent disclosure covers one log only. */
  lemma {:induction false} OneLogIsCovered(account: Account, entries: seq<ManifestEntry>, xs: seq<string>, ys: seq<string>)
    requires Consistent(entries) && Covers(account, entries, xs) && Covers(account, entries, ys)
    ensures xs == ys
  {
    forall k | 0 <= k < |xs| ensures xs[k] == ys[k] {
      var e := EntryAt(entries, k);
      var i :| 0 <= i < |entries| && entries[i] == e;
      assert CoversEntry(account, xs, entries[i]) && CoversEntry(account, ys, entries[i]);
    }
  }

  /** With a truthful disclosure of `words` no altered log passes, whatever calls are served with it and whatever hash and
      chain: a completed run passes if and only if the attestation passed, exactly those words were served, and the chain
      confirms what was rebuilt and stored. */
  lemma {:induction false} TruthfulDisclosureBindsTheLog(h: PairHash<Fr>, note: NoteHash, inputs: Inputs, chain: Option<Chain>,
                                                         verify: bool, words: seq<Digest>)
    requires Completes(h, note, inputs, chain, verify)
    requires Discloses(Recomputes(note, inputs.records), inputs.manifest.entries, words)
    ensures Failures(h, note, inputs, chain, verify) == [] <==>
              && inputs.attested
              && Canonical(inputs.anchorSet).value == Map(WordHex(), words)
              && AllConfirmed(chain, Rebuilt(h, inputs).value)
              && (CrossChecked(chain, verify) ==> StoredAsServed(chain.value, Map(WordHex(), words)))
  {
    hide Failures, Canonical, StatesRecords, AllResolve, Covers, StoredAsServed, AllConfirmed, Rebuilt;
    var account, entries := Accounts(Recomputes(note, inputs.records)), inputs.manifest.entries;
    PassIsExact(h, note, inputs, chain, verify);
    if Covers(account, entries, Canonical(inputs.anchorSet).value) {
      OneLogIsCovered(account, entries, Canonical(inputs.anchorSet).value, Map(WordHex(), words));
    }
  }

  lemma HonestStorage(chain: Chain)
    ensures StoredAsServed(chain, Map(WordHex(), chain.commitments))
  {
    forall i | 0 <= i < |chain.commitments| ensures ToHex(chain.commitments[i]) == Map(WordHex(), chain.commitments)[i] {}
  }

  lemma HonestRootsConfirmed(c: Contract, chain: Chain, roots: seq<Fr>)
    requires Map(RootWord(), roots) == c.roots && chain.knownRoots == Elements(c.roots)
    ensures AllConfirmed(Some(chain), roots)
  {
    forall i | 0 <= i < |roots| ensures Confirms(Some(chain), roots[i]) {
      assert RootWord()(roots[i]) == c.roots[i] && c.roots[i] in c.roots;
    }
  }

  // ----- altered records -------------------------------------------------------------------------------

  /** The leaves whose record now hashes to something else. */
  ghost function AlteredLeaves(was: Recompute, now: Recompute, entries: seq<ManifestEntry>): set<nat> {
    set i | 0 <= i < |entries| && Altered(was, now, entries[i]) :: entries[i].leafIndex
  }

  predicate Altered(was: Recompute, now: Recompute, e: ManifestEntry) {
    e.kind == Disclosed && now(e.leafIndex) != was(e.leafIndex)
  }

  /** The failures of a run with these leaves altered: each named twice, and one accounting failure that counts them. */
  ghost predicate AlteredFailure(altered: set<nat>, f: Failure) {
    match f
    case ManifestMismatch(leaf) => leaf in altered
    case RecordFails(leaf) => leaf in altered
    case AccountingFails(unaccounted, missing) => unaccounted == |altered| > 0 && missing == 0
    case _ => false
  }

  /** If a run passes, the same run with some records altered names exactly the altered ones, and nothing about the
      attestation, the roots or the storage. */
  lemma {:induction false} AlteredRecordsAreNamed(h: PairHash<Fr>, note: NoteHash, inputs: Inputs, chain: Option<Chain>,
                                                  verify: bool, records: map<nat, DisclosedRecord>)
    requires Consistent(inputs.manifest.entries) && AllResolve(Recomputes(note, records), inputs.manifest.entries)
    requires Completes(h, note, inputs, chain, verify) && Failures(h, note, inputs, chain, verify) == []
    ensures Completes(h, note, inputs.(records := records), chain, verify)
    ensures var altered := AlteredLeaves(Recomputes(note, inputs.records), Recomputes(note, records), inputs.manifest.entries);
            forall f :: f in Failures(h, note, inputs.(records := records), chain, verify) <==> AlteredFailure(altered, f)
    ensures NoDup(Failures(h, note, inputs.(records := records), chain, verify))
  {
    var was, now, served := Recomputes(note, inputs.records), Recomputes(note, records), Canonical(inputs.anchorSet).value;
    PassIsExact(h, note, inputs, chain, verify);
    ChainPasses(chain, verify, Rebuilt(h, inputs).value, served);
    AlteredDisclosure(was, now, inputs.manifest.entries, served);
    DisclosureDistinct(now, Accounts(now), inputs.manifest.entries, served);
    assert Failures(h, note, inputs.(records := records), chain, verify) ==
           [] + DisclosureFailures(now, Accounts(now), inputs.manifest.entries, served) + [];
  }

  predicate Names(f: Failure, leaf: nat) { (f.ManifestMismatch? || f.RecordFails?) && f.leaf == leaf }

  lemma EntryFailures(recompute: Recompute, served: seq<string>, e: ManifestEntry)
    ensures NoDup(RecordFailures(recompute, served)(e))
    ensures forall f :: f in RecordFailures(recompute, served)(e) ==> Names(f, e.leafIndex)
  {}

  lemma {:induction false} EntriesDisjoint(recompute: Recompute, entries: seq<ManifestEntry>, served: seq<string>)
    requires NoDup(Map(EntryLeaf(), entries))
    ensures Disjointly(RecordFailures(recompute, served), entries)
    ensures forall f: Failure :: f in Collect(RecordFailures(recompute, served), entries) ==> !f.AccountingFails?
  {
    var fails, leaves := RecordFailures(recompute, served), Map(EntryLeaf(), entries);
    forall i | 0 <= i < |entries|
      ensures NoDup(fails(entries[i])) && forall f :: f in fails(entries[i]) ==> Names(f, leaves[i])
    {
      EntryFailures(recompute, served, entries[i]);
    }
    forall f: Failure | f in Collect(fails, entries) ensures !f.AccountingFails? {
      CollectMember(fails, entries, f);
      var i :| 0 <= i < |entries| && f in fails(entries[i]);
      assert Names(f, leaves[i]);
    }
    forall i, j, f | 0 <= i < j < |entries| && f in fails(entries[i]) ensures f !in fails(entries[j]) {
      assert leaves[i] != leaves[j] && Names(f, leaves[i]);
    }
  }

  /** Over a consistent manifest no failure of the disclosure is listed twice. */
  lemma {:induction false} DisclosureDistinct(recompute: Recompute, account: Account, entries: seq<ManifestEntry>, served: seq<string>)
    requires Consistent(entries)
    ensures NoDup(DisclosureFailures(recompute, account, entries, served))
  {
    EntriesDisjoint(recompute, entries, served);
    CollectDistinct(RecordFailures(recompute, served), entries, |entries|);
    var expected := ExpectedTo(account, entries, |entries|);
    NoDupJoin(Collect(RecordFailures(recompute, served), entries),
              AccountingFailures(|UnaccountedTo(expected, served, |served|)|, |Missing(expected, served)|));
  }

  lemma {:induction false} AlteredDisclosure(was: Recompute, now: Recompute, entries: seq<ManifestEntry>, served: seq<string>)
    requires Consistent(entries) && AllResolve(now, entries)
    requires Covers(Accounts(was), entries, served) && StatesRecords(was, entries)
    ensures forall f :: f in DisclosureFailures(now, Accounts(now), entries, served) <==>
              AlteredFailure(AlteredLeaves(was, now, entries), f)
  {
    AlteredAccounting(was, now, entries, served);
    forall f ensures f in DisclosureFailures(now, Accounts(now), entries, served) <==>
                       AlteredFailure(AlteredLeaves(was, now, entries), f)
    {
      AlteredRecordFailures(was, now, entries, served, f);
    }
  }

  lemma {:induction false} AlteredRecordFailures(was: Recompute, now: Recompute, entries: seq<ManifestEntry>,
                                                 served: seq<string>, f: Failure)
    requires Consistent(entries) && AllResolve(now, entries)
    requires Covers(Accounts(was), entries, served) && StatesRecords(was, entries)
    ensures f in Collect(RecordFailures(now, served), entries) <==>
              (f.ManifestMismatch? || f.RecordFails?) && f.leaf in AlteredLeaves(was, now, entries)
  {
    CollectMember(RecordFailures(now, served), entries, f);
    forall i | 0 <= i < |entries|
      ensures f in RecordFailures(now, served)(entries[i]) <==>
                (f.ManifestMismatch? || f.RecordFails?) && f.leaf == entries[i].leafIndex && Altered(was, now, entries[i])
    {
      assert entries[i] in entries && CoversEntry(Accounts(was), served, entries[i]) && Accounts(now)(entries[i]).Ok?;
      AlteredRecordFailure(was, now, entries[i], served, f);
    }
  }

  lemma AlteredRecordFailure(was: Recompute, now: Recompute, e: ManifestEntry, served: seq<string>, f: Failure)
    requires FileFits(e) && CoversEntry(Accounts(was), served, e) && Accounts(now)(e).Ok?
    requires e.kind == Disclosed ==> was(e.leafIndex) == Ok(e.commitment)
    ensures f in RecordFailures(now, served)(e) <==>
              (f.ManifestMismatch? || f.RecordFails?) && f.leaf == e.leafIndex && Altered(was, now, e)
  {
    assert e.kind == Disclosed ==> was(e.leafIndex) == Ok(served[e.leafIndex]) && now(e.leafIndex).Ok?;
  }

  lemma {:induction false} AlteredAccounting(was: Recompute, now: Recompute, entries: seq<ManifestEntry>, served: seq<string>)
    requires Consistent(entries) && AllResolve(now, entries) && Covers(Accounts(was), entries, served)
    ensures var expected := ExpectedTo(Accounts(now), entries, |entries|);
            && |UnaccountedTo(expected, served, |served|)| == |AlteredLeaves(was, now, entries)|
            && |Missing(expected, served)| == 0
  {
    var expected, altered := ExpectedTo(Accounts(now), entries, |entries|), AlteredLeaves(was, now, entries);
    var unaccounted := UnaccountedTo(expected, served, |served|);
    ExpectedIs(Accounts(now), entries, |entries|);
    UnaccountedAre(expected, served, |served|);
    forall k | k in expected ensures k < |served| { ExpectedKeys(Accounts(now), entries, expected, k); }
    assert Missing(expected, served) == {};
    AlteredBelow(was, now, entries);
    forall leaf: nat ensures leaf in unaccounted <==> leaf in altered {
      if leaf < |served| { AlteredUnaccounted(was, now, entries, served, expected, leaf); }
    }
    assert Elements(unaccounted) == altered;
    DistinctCount(unaccounted);
  }

  lemma AlteredBelow(was: Recompute, now: Recompute, entries: seq<ManifestEntry>)
    requires Consistent(entries)
    ensures forall leaf :: leaf in AlteredLeaves(was, now, entries) ==> leaf < |entries|
  {
    forall i | 0 <= i < |entries| ensures entries[i].leafIndex < |entries| { assert entries[i] in entries; }
  }

  lemma {:induction false} AlteredUnaccounted(was: Recompute, now: Recompute, entries: seq<ManifestEntry>, served: seq<string>,
                                              expected: map<nat, string>, leaf: nat)
    requires Consistent(entries) && Covers(Accounts(was), entries, served)
    requires IsExpected(Accounts(now), entries, |entries|, expected) && leaf < |served|
    ensures !Matches(expected, served, leaf) <==> leaf in AlteredLeaves(was, now, entries)
  {
    var e := EntryAt(entries, leaf);
    var k :| 0 <= k < |entries| && entries[k] == e;
    assert Files(Accounts(now), expected, entries[k]) && CoversEntry(Accounts(was), served, entries[k]);
    assert !Matches(expected, served, leaf) <==> Accounts(now)(e) != Accounts(was)(e);
    if leaf in AlteredLeaves(was, now, entries) {
      var i :| 0 <= i < |entries| && Altered(was, now, entries[i]) && entries[i].leafIndex == leaf;
      OneEntryALeaf(entries, e, entries[i]);
    }
  }
}
