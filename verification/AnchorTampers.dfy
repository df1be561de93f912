/** What a passing audit binds of the log it was served, and what it leaves open. */
module AnchorTampers {
  import opened Basics
  import opened ByteCodec
  import opened Text
  import opened Merkle
  import opened MerkleShape
  import opened BondMapping
  import opened BondLog
  import opened BondContract
  import opened ServedLog
  import opened FieldHex
  import opened CanonicalHex
  import opened BondReplay
  import opened RecordedRoots
  import opened Records
  import opened Reconcile
  import opened ReconcileTheorems
  import opened RunReports

  /** What the auditor's own node answers of contract `c`. */
  function ChainOf(c: Contract): Chain { Chain(Elements(c.roots), c.commitments) }

  ghost function Leaves(h: PairHash<Fr>, inputs: Inputs): seq<Fr>
    requires Rebuilt(h, inputs).Some?
  {
    ReplayedLeaves(h, inputs.anchorSet, inputs.manifest.leafCountsAfterEachCall)
  }

  ghost function Counted(h: PairHash<Fr>, inputs: Inputs): seq<nat>
    requires Rebuilt(h, inputs).Some?
  {
    ReplayedAt(h, inputs.anchorSet, inputs.manifest.leafCountsAfterEachCall)
  }

  lemma RebuiltIs(h: PairHash<Fr>, inputs: Inputs, i: nat)
    requires Rebuilt(h, inputs).Some? && i < |Counted(h, inputs)|
    ensures |Rebuilt(h, inputs).value| == |Counted(h, inputs)|
    ensures 0 < Counted(h, inputs)[i] <= |Leaves(h, inputs)|
    ensures Rebuilt(h, inputs).value[i] == Root(h, Leaves(h, inputs)[..Counted(h, inputs)[i]])
  {}

  // ----- known roots -------------------------------------------------------------------------

  /** The chain knows a rebuilt root exactly if its leaves are the same tree as a recorded state of the array. */
  lemma {:induction false} KnownRootExactly(h: PairHash<Fr>, calls: seq<BondCall>, c: Contract, leaves: seq<Fr>)
    requires Played(WordHash(h), calls, |calls|) == Some(c) && InField(c.commitments)
    requires leaves != [] && UncollidedWith(h, calls, c.commitments, leaves)
    ensures Confirms(Some(ChainOf(c)), Root(h, leaves)) <==> TreeRecorded(h, calls, c.commitments, leaves)
  {
    hide Played, UncollidedWith, TreeRecorded, Root;
    RecordedExactly(h, calls, c, leaves);
  }

  // ----- a pass against the contract, in terms of leaves -----------------------------------------

  /** At every boundary the run replays, the leaves are the same tree as a recorded state of the array. */
  ghost predicate AllRecorded(h: PairHash<Fr>, calls: seq<BondCall>, words: seq<Digest>, leaves: seq<Fr>, counts: seq<nat>)
    requires InRange(counts, |leaves|)
  {
    forall i {:trigger counts[i]} :: 0 <= i < |counts| ==> TreeRecorded(h, calls, words, leaves[..counts[i]])
  }

  ghost predicate AllUncollided(h: PairHash<Fr>, calls: seq<BondCall>, words: seq<Digest>, leaves: seq<Fr>, counts: seq<nat>)
    requires InRange(counts, |leaves|)
  {
    forall i {:trigger counts[i]} :: 0 <= i < |counts| ==> UncollidedWith(h, calls, words, leaves[..counts[i]])
  }

  lemma {:induction false} ConfirmedExactly(h: PairHash<Fr>, calls: seq<BondCall>, c: Contract, inputs: Inputs)
    requires Played(WordHash(h), calls, |calls|) == Some(c) && InField(c.commitments)
    requires Rebuilt(h, inputs).Some? && InRange(Counted(h, inputs), |Leaves(h, inputs)|)
    requires AllUncollided(h, calls, c.commitments, Leaves(h, inputs), Counted(h, inputs))
    ensures AllConfirmed(Some(ChainOf(c)), Rebuilt(h, inputs).value) <==>
              AllRecorded(h, calls, c.commitments, Leaves(h, inputs), Counted(h, inputs))
  {
    var counts, leaves, roots := Counted(h, inputs), Leaves(h, inputs), Rebuilt(h, inputs).value;
    assert |roots| == |counts|;
    forall i | 0 <= i < |counts|
      ensures Confirms(Some(ChainOf(c)), roots[i]) <==> TreeRecorded(h, calls, c.commitments, leaves[..counts[i]])
    {
      RebuiltIs(h, inputs, i);
      KnownRootExactly(h, calls, c, leaves[..counts[i]]);
    }
  }

  /** Whatever log is served, calls included: a completed run passes against the contract's own state if and only if the
      attestation passed, the disclosure fits what was served, the leaves at every replayed boundary are the same tree as a
      recorded state of the array, and the storage check, where asked for, agrees at every leaf. */
  lemma {:induction false} PassBindsLeaves(h: PairHash<Fr>, note: NoteHash, calls: seq<BondCall>, c: Contract, inputs: Inputs,
                                           verify: bool)
    requires Played(WordHash(h), calls, |calls|) == Some(c) && InField(c.commitments)
    requires Completes(h, note, inputs, Some(ChainOf(c)), verify) && Consistent(inputs.manifest.entries)
    requires AllUncollided(h, calls, c.commitments, Leaves(h, inputs), Counted(h, inputs))
    ensures var recompute, served := Recomputes(note, inputs.records), Canonical(inputs.anchorSet).value;
            Failures(h, note, inputs, Some(ChainOf(c)), verify) == [] <==>
              && inputs.attested
              && Covers(Accounts(recompute), inputs.manifest.entries, served)
              && StatesRecords(recompute, inputs.manifest.entries)
              && AllRecorded(h, calls, c.commitments, Leaves(h, inputs), Counted(h, inputs))
              && (verify ==> StoredAsServed(ChainOf(c), served))
  {
    PassIsExact(h, note, inputs, Some(ChainOf(c)), verify);
    ConfirmedExactly(h, calls, c, inputs);
  }

  // ----- bound leaves ------------------------------------------------------------------------------

  /** Every state of the array recorded at this tree height was longer than `k`. */
  ghost predicate RecordedLonger(calls: seq<BondCall>, height: nat, k: nat) {
    forall r: nat {:trigger CountsLog(calls)[r]} :: r < |calls| && CountsLog(calls)[r] > 0 && Height(CountsLog(calls)[r]) == height ==>
      CountsLog(calls)[r] > k
  }

  lemma RecordedMeansSame(h: PairHash<Fr>, calls: seq<BondCall>, words: seq<Digest>, leaves: seq<Fr>, k: nat)
    requires leaves != [] && UnmixedWith(h, calls, words, leaves) && TreeRecorded(h, calls, words, leaves) && k < |leaves|
    requires RecordedLonger(calls, Height(|leaves|), k)
    ensures k < |words| && leaves[k] == Numbers(words)[k]
  {
    hide SameTree, Unmixed;
    var r: nat :| r < |calls| && SameTreeAfter(h, calls, words, leaves, r);
    var recorded := Numbers(words)[..CountsLog(calls)[r]];
    UnmixedSameTree(h, leaves, recorded);
    AlikeAgrees(leaves, recorded, k);
  }

  /** A leaf under a replayed boundary that is not the contract's is reported at that boundary, if every state the
      contract recorded at that tree height already held a leaf there and no leaf is a node. */
  lemma {:induction false} HashedLeafIsBound(h: PairHash<Fr>, note: NoteHash, calls: seq<BondCall>, c: Contract, inputs: Inputs,
                                             verify: bool, k: nat, i: nat)
    requires Played(WordHash(h), calls, |calls|) == Some(c) && InField(c.commitments)
    requires Completes(h, note, inputs, Some(ChainOf(c)), verify)
    requires i < |Counted(h, inputs)| && k < Counted(h, inputs)[i] <= |Leaves(h, inputs)|
    requires UnmixedWith(h, calls, c.commitments, Leaves(h, inputs)[..Counted(h, inputs)[i]])
    requires RecordedLonger(calls, Height(Counted(h, inputs)[i]), k)
    requires k >= |c.commitments| || Leaves(h, inputs)[k] != Numbers(c.commitments)[k]
    ensures RootFails(i) in Failures(h, note, inputs, Some(ChainOf(c)), verify)
  {
    var chain, leaves := Some(ChainOf(c)), Leaves(h, inputs)[..Counted(h, inputs)[i]];
    RebuiltIs(h, inputs, i);
    UnmixedIsUncollided(h, calls, c.commitments, leaves);
    KnownRootExactly(h, calls, c, leaves);
    if TreeRecorded(h, calls, c.commitments, leaves) { RecordedMeansSame(h, calls, c.commitments, leaves, k); }
    var roots := Rebuilt(h, inputs).value;
    RootFailsAt(chain, roots, |roots|, i);
    RootFailureIsListed(h, note, inputs, chain, verify, RootFails(i));
  }

  lemma RootFailureIsListed(h: PairHash<Fr>, note: NoteHash, inputs: Inputs, chain: Option<Chain>, verify: bool, f: Failure)
    requires Completes(h, note, inputs, chain, verify)
    requires f in RootFailuresTo(chain, Rebuilt(h, inputs).value, |Rebuilt(h, inputs).value|)
    ensures f in Failures(h, note, inputs, chain, verify)
  {}

  /** A boundary at the served count closes the rest: where every state recorded at that height is as long as what was
      served, and no leaf is a node, a pass means that what was served is the array so far. */
  lemma {:induction false} FullBoundaryBindsTheLog(h: PairHash<Fr>, note: NoteHash, calls: seq<BondCall>, c: Contract,
                                                   inputs: Inputs, verify: bool, i: nat)
    requires Played(WordHash(h), calls, |calls|) == Some(c) && InField(c.commitments)
    requires Completes(h, note, inputs, Some(ChainOf(c)), verify)
    requires Failures(h, note, inputs, Some(ChainOf(c)), verify) == []
    requires i < |Counted(h, inputs)| && Counted(h, inputs)[i] == |Leaves(h, inputs)| > 0
    requires UnmixedWith(h, calls, c.commitments, Leaves(h, inputs))
    requires RecordedLonger(calls, Height(|Leaves(h, inputs)|), |Leaves(h, inputs)| - 1)
    ensures |Leaves(h, inputs)| <= |c.commitments| && Leaves(h, inputs) == Numbers(c.commitments)[..|Leaves(h, inputs)|]
  {
    var chain, leaves, roots := Some(ChainOf(c)), Leaves(h, inputs), Rebuilt(h, inputs).value;
    assert leaves[..|leaves|] == leaves;
    RebuiltIs(h, inputs, i);
    NoRootFails(h, note, inputs, chain, verify, i);
    UnmixedIsUncollided(h, calls, c.commitments, leaves);
    KnownRootExactly(h, calls, c, leaves);
    RecordedMeansPrefix(h, calls, c.commitments, leaves);
  }

  lemma {:induction false} NoRootFails(h: PairHash<Fr>, note: NoteHash, inputs: Inputs, chain: Option<Chain>, verify: bool, i: nat)
    requires Completes(h, note, inputs, chain, verify) && Failures(h, note, inputs, chain, verify) == []
    requires i < |Rebuilt(h, inputs).value|
    ensures Confirms(chain, Rebuilt(h, inputs).value[i])
  {
    var roots := Rebuilt(h, inputs).value;
    assert RootFailuresTo(chain, roots, |roots|) == [];
    RootFailsAt(chain, roots, |roots|, i);
  }

  lemma StillLonger(calls: seq<BondCall>, height: nat, k: nat, j: nat)
    requires RecordedLonger(calls, height, k) && j <= k
    ensures RecordedLonger(calls, height, j)
  {}

  lemma RecordedMeansPrefix(h: PairHash<Fr>, calls: seq<BondCall>, words: seq<Digest>, leaves: seq<Fr>)
    requires leaves != [] && UnmixedWith(h, calls, words, leaves) && TreeRecorded(h, calls, words, leaves)
    requires RecordedLonger(calls, Height(|leaves|), |leaves| - 1)
    ensures |leaves| <= |words| && leaves == Numbers(words)[..|leaves|]
  {
    hide UnmixedWith, TreeRecorded, RecordedLonger;
    RecordedMeansSame(h, calls, words, leaves, |leaves| - 1);
    forall k | 0 <= k < |leaves| ensures leaves[k] == Numbers(words)[k] {
      StillLonger(calls, Height(|leaves|), |leaves| - 1, k);
      RecordedMeansSame(h, calls, words, leaves, k);
    }
  }

  /** The storage check closes it whatever was counted: a pass with it means that what was served is the array so far. */
  lemma {:induction false} StorageCheckBindsTheLog(h: PairHash<Fr>, note: NoteHash, inputs: Inputs, chain: Chain)
    requires Completes(h, note, inputs, Some(chain), true) && Consistent(inputs.manifest.entries)
    requires Failures(h, note, inputs, Some(chain), true) == []
    ensures |Canonical(inputs.anchorSet).value| <= |chain.commitments|
    ensures Canonical(inputs.anchorSet).value == Map(WordHex(), chain.commitments)[..|Canonical(inputs.anchorSet).value|]
  {
    PassIsExact(h, note, inputs, Some(chain), true);
    StoredIsServed(chain, Canonical(inputs.anchorSet).value);
  }

  lemma StoredIsServed(chain: Chain, served: seq<string>)
    requires StoredAsServed(chain, served)
    ensures |served| <= |chain.commitments| && served == Map(WordHex(), chain.commitments)[..|served|]
  {
    forall i | 0 <= i < |served| ensures served[i] == Map(WordHex(), chain.commitments)[i] {
      assert ToHex(chain.commitments[i]) == served[i];
    }
  }

  // ----- unbound leaves -------------------------------------------------------------------------------

  /** The run with the served entity `p` and the manifest entry `q` restated as `w`. */
  function Forged(inputs: Inputs, p: nat, q: nat, w: Digest): Inputs
    requires p < |inputs.anchorSet.commitments| && q < |inputs.manifest.entries|
  {
    inputs.(anchorSet := inputs.anchorSet.(commitments := ForgedPage(inputs.anchorSet.commitments, p, w)),
            manifest := inputs.manifest.(entries := ForgedEntries(inputs.manifest.entries, q, w)))
  }

  function ForgedPage(page: seq<CommitmentEntity>, p: nat, w: Digest): seq<CommitmentEntity>
    requires p < |page|
  {
    page[p := page[p].(value := ToHex(w))]
  }

  function ForgedEntries(entries: seq<ManifestEntry>, q: nat, w: Digest): seq<ManifestEntry>
    requires q < |entries|
  {
    entries[q := entries[q].(commitment := ToHex(w))]
  }

  lemma {:induction false} ForgedOrder(page: seq<CommitmentEntity>, p: nat, w: Digest)
    requires p < |page| && InOrder(page).Some?
    ensures ParseU64(page[p].leafIndex).Some? && ParseU64(page[p].leafIndex).value < |InOrder(page).value|
    ensures InOrder(ForgedPage(page, p, w)) ==
              Some(ForgedPage(InOrder(page).value, ParseU64(page[p].leafIndex).value, w))
  {
    var xs := InOrder(page).value;
    OrderedPosition(page, xs, page[p]);
    var k := ParseU64(page[p].leafIndex).value;
    assert multiset(ForgedPage(xs, k, w)) == multiset(xs) - multiset{xs[k]} + multiset{xs[k].(value := ToHex(w))};
    InOrderIs(ForgedPage(page, p, w), ForgedPage(xs, k, w));
  }

  lemma ForgedReads<T, E>(f: CommitmentEntity -> Result<T, E>, xs: seq<CommitmentEntity>, k: nat, w: Digest, v: T)
    requires k < |xs| && AllOk(f, xs).Ok? && f(xs[k].(value := ToHex(w))) == Ok(v)
    ensures |AllOk(f, xs).value| == |xs| && AllOk(f, ForgedPage(xs, k, w)) == Ok(AllOk(f, xs).value[k := v])
  {
    AllOkIs(f, xs, |xs|);
    AllOkAs(f, ForgedPage(xs, k, w), AllOk(f, xs).value[k := v]);
  }

  /** What the forged run reads: the same log but for leaf `k`. */
  lemma {:induction false} ForgedLog(anchorSet: AnchorSet, p: nat, k: nat, w: Digest)
    requires p < |anchorSet.commitments| && ParseU64(anchorSet.commitments[p].leafIndex) == Some(k)
    requires Canonical(anchorSet).Some? && FromBigEndian(w) < ORDER
    ensures var forged := anchorSet.(commitments := ForgedPage(anchorSet.commitments, p, w));
            && k < |Canonical(anchorSet).value| && Canonical(forged) == Some(Canonical(anchorSet).value[k := ToHex(w)])
  {
    ForgedOrder(anchorSet.commitments, p, w);
    WordReads(w);
    ForgedReads(CanonicalValue(), InOrder(anchorSet.commitments).value, k, w, ToHex(w));
  }

  /** Rewriting a leaf no boundary covers leaves every rebuilt root as it was. */
  lemma {:induction false} ForgedRoots(h: PairHash<Fr>, inputs: Inputs, p: nat, q: nat, k: nat, w: Digest)
    requires Rebuilt(h, inputs).Some? && FromBigEndian(w) < ORDER
    requires p < |inputs.anchorSet.commitments| && q < |inputs.manifest.entries|
    requires ParseU64(inputs.anchorSet.commitments[p].leafIndex) == Some(k)
    requires forall count :: count in Counted(h, inputs) ==> count <= k
    ensures Rebuilt(h, Forged(inputs, p, q, w)) == Rebuilt(h, inputs)
  {
    var forged, leaves, counts := Forged(inputs, p, q, w), Leaves(h, inputs), Counted(h, inputs);
    ForgedOrder(inputs.anchorSet.commitments, p, w);
    WordReads(w);
    var f: Fr := FromBigEndian(w);
    ForgedReads(ServedNumber(), InOrder(inputs.anchorSet.commitments).value, k, w, f);
    forall i | 0 <= i < |counts| ensures PrefixRoot(h, leaves[k := f])(counts[i]) == PrefixRoot(h, leaves)(counts[i]) {
      assert counts[i] in counts;
      assert leaves[k := f][..counts[i]] == leaves[..counts[i]];
    }
    assert Map(PrefixRoot(h, leaves[k := f]), counts) == Map(PrefixRoot(h, leaves), counts);
  }

  lemma {:induction false} ForgedDisclosure(recompute: Recompute, entries: seq<ManifestEntry>, served: seq<string>, q: nat, w: Digest)
    requires Consistent(entries) && AllResolve(recompute, entries) && FromBigEndian(w) < ORDER
    requires Covers(Accounts(recompute), entries, served) && StatesRecords(recompute, entries)
    requires q < |entries| && entries[q].kind == BurnOutputZero && entries[q].leafIndex < |served|
    ensures var es := ForgedEntries(entries, q, w);
            && Consistent(es) && AllResolve(recompute, es) && StatesRecords(recompute, es)
            && Covers(Accounts(recompute), es, served[entries[q].leafIndex := ToHex(w)])
  {
    var es, served' := ForgedEntries(entries, q, w), served[entries[q].leafIndex := ToHex(w)];
    assert entries[q] in entries;
    assert Map(EntryLeaf(), es) == Map(EntryLeaf(), entries);
    forall e | e in es ensures FileFits(e) && e.leafIndex < |es| {
      var i :| 0 <= i < |es| && es[i] == e;
      assert entries[i] in entries;
    }
    WordReads(w);
    forall i | 0 <= i < |es|
      ensures es[i].recordFile.Some? ==> recompute(es[i].leafIndex).Ok?
      ensures CoversEntry(Accounts(recompute), served', es[i])
    {
      ForgedEntry(recompute, entries, served, q, w, i);
    }
  }

  lemma ForgedEntry(recompute: Recompute, entries: seq<ManifestEntry>, served: seq<string>, q: nat, w: Digest, i: nat)
    requires Consistent(entries) && AllResolve(recompute, entries) && NormalizeBytes32Hex(ToHex(w)) == Ok(ToHex(w))
    requires Covers(Accounts(recompute), entries, served) && i < |entries|
    requires q < |entries| && entries[q].kind == BurnOutputZero && entries[q].leafIndex < |served|
    ensures var es := ForgedEntries(entries, q, w);
            && (es[i].recordFile.Some? ==> recompute(es[i].leafIndex).Ok?)
            && CoversEntry(Accounts(recompute), served[entries[q].leafIndex := ToHex(w)], es[i])
  {
    assert CoversEntry(Accounts(recompute), served, entries[i]);
    if i != q {
      var leaves := Map(EntryLeaf(), entries);
      assert leaves[i] != leaves[q];
    }
  }

  /** A leaf no replayed boundary covers is free: rewritten together with the structural manifest entry that states it,
      by any word of the field, it leaves a passing run passing, whatever the chain, without the storage check. */
  lemma {:induction false} UnhashedLeafIsFree(h: PairHash<Fr>, note: NoteHash, inputs: Inputs, chain: Option<Chain>, verify: bool,
                                              p: nat, q: nat, w: Digest)
    requires Completes(h, note, inputs, chain, verify) && !CrossChecked(chain, verify)
    requires Consistent(inputs.manifest.entries) && Failures(h, note, inputs, chain, verify) == []
    requires p < |inputs.anchorSet.commitments| && q < |inputs.manifest.entries|
    requires inputs.manifest.entries[q].kind == BurnOutputZero
    requires ParseU64(inputs.anchorSet.commitments[p].leafIndex) == Some(inputs.manifest.entries[q].leafIndex)
    requires forall count :: count in Counted(h, inputs) ==> count <= inputs.manifest.entries[q].leafIndex
    requires FromBigEndian(w) < ORDER
    ensures Completes(h, note, Forged(inputs, p, q, w), chain, verify)
    ensures Failures(h, note, Forged(inputs, p, q, w), chain, verify) == []
  {
    var forged, k := Forged(inputs, p, q, w), inputs.manifest.entries[q].leafIndex;
    PassIsExact(h, note, inputs, chain, verify);
    ForgedLog(inputs.anchorSet, p, k, w);
    ForgedRoots(h, inputs, p, q, k, w);
    ForgedDisclosure(Recomputes(note, inputs.records), inputs.manifest.entries, Canonical(inputs.anchorSet).value, q, w);
    PassIsExact(h, note, forged, chain, verify);
  }

  // ----- runs over structural outputs alone ---------------------------------------------------------------

  function PageOf(words: seq<Digest>): (r: seq<CommitmentEntity>)
    ensures |r| == |words|
  {
    seq(|words|, i requires 0 <= i < |words| => CommitmentEntity(Padded(i), Decimal(i), ToHex(words[i])))
  }

  function CallsOf(totals: seq<nat>): (r: seq<CallEntity>)
    ensures |r| == |totals|
  {
    seq(|totals|, i requires 0 <= i < |totals| => CallEntity(Padded(i), Decimal(totals[i])))
  }

  function EntriesOf(words: seq<Digest>): (r: seq<ManifestEntry>)
    ensures |r| == |words|
  {
    seq(|words|, i requires 0 <= i < |words| => ManifestEntry(i, BurnOutputZero, None, ToHex(words[i])))
  }

  /** These words served, these totals counted, and a manifest that states the words as structural outputs. */
  function Structural(words: seq<Digest>, totals: seq<nat>): Inputs {
    Inputs(AnchorSet(false, PageOf(words), [], [], CallsOf(totals)), Manifest(EntriesOf(words), []), map[], true)
  }

  lemma {:induction false} PageIsOrdered(words: seq<Digest>)
    requires |words| <= U64_LIMIT
    ensures InOrder(PageOf(words)) == Some(PageOf(words))
  {
    forall i | 0 <= i < |words| ensures ParseU64(PageOf(words)[i].leafIndex) == Some(i) { DecimalParses(i); }
    InOrderIs(PageOf(words), PageOf(words));
  }

  lemma {:induction false} PageReads(words: seq<Digest>)
    requires InField(words)
    ensures AllOk(ServedNumber(), PageOf(words)) == Ok(Numbers(words))
    ensures AllOk(CanonicalValue(), PageOf(words)) == Ok(Map(WordHex(), words))
  {
    var page := PageOf(words);
    forall i | 0 <= i < |words|
      ensures ServedNumber()(page[i]) == Ok(Numbers(words)[i])
      ensures CanonicalValue()(page[i]) == Ok(Map(WordHex(), words)[i])
    {
      assert FromBigEndian(words[i]) < ORDER;
      WordReads(words[i]);
    }
    AllOkAs(ServedNumber(), page, Numbers(words));
    AllOkAs(CanonicalValue(), page, Map(WordHex(), words));
  }

  lemma {:induction false} CallsInIdOrder(totals: seq<nat>)
    requires |totals| <= 1_000_000_000_000
    ensures CallsInOrder(CallsOf(totals)) == CallsOf(totals)
  {
    CallsPadded(totals);
    IdsInOrder(CallsOf(totals), CallsOf(totals));
  }

  lemma CallsPadded(totals: seq<nat>)
    requires |totals| <= 1_000_000_000_000
    ensures PaddedIds(CallsOf(totals))
  {}

  lemma {:induction false} CallsCount(totals: seq<nat>)
    requires NeverFalls(totals) && |totals| <= 1_000_000_000_000
    requires forall i {:trigger totals[i]} :: 0 <= i < |totals| ==> totals[i] < U64_LIMIT
    ensures Counts(CallsOf(totals)) == Some(totals)
  {
    CallsInIdOrder(totals);
    ServedCounts(CallsOf(totals), totals);
  }

  lemma {:induction false} EntriesFit(recompute: Recompute, words: seq<Digest>)
    requires InField(words)
    ensures var entries := EntriesOf(words);
            && Consistent(entries) && AllResolve(recompute, entries) && StatesRecords(recompute, entries)
            && Covers(Accounts(recompute), entries, Map(WordHex(), words))
  {
    var entries, served := EntriesOf(words), Map(WordHex(), words);
    forall i | 0 <= i < |entries| ensures CoversEntry(Accounts(recompute), served, entries[i]) {
      assert FromBigEndian(words[i]) < ORDER;
      WordReads(words[i]);
    }
    forall i, j | 0 <= i < j < |entries| ensures Map(EntryLeaf(), entries)[i] != Map(EntryLeaf(), entries)[j] {}
  }

  ghost predicate Fits(words: seq<Digest>, totals: seq<nat>) {
    && InField(words) && |words| < U64_LIMIT
    && NeverFalls(totals) && |totals| <= 1_000_000_000_000 && InRange(totals, |words|)
  }

  lemma {:induction false} StructuralReplay(h: PairHash<Fr>, words: seq<Digest>, totals: seq<nat>)
    requires Fits(words, totals)
    ensures Canonical(Structural(words, totals).anchorSet) == Some(Map(WordHex(), words))
    ensures Rebuilt(h, Structural(words, totals)) == Some(Map(PrefixRoot(h, Numbers(words)), totals))
  {
    PageIsOrdered(words);
    PageReads(words);
    forall i | 0 <= i < |totals| ensures totals[i] < U64_LIMIT { assert 0 < totals[i] <= |words|; }
    CallsCount(totals);
    assert Boundaries(totals, []) == totals;
  }

  /** Such a run completes, and passes exactly if the chain knows the root at every total. */
  lemma {:induction false} StructuralRun(h: PairHash<Fr>, note: NoteHash, words: seq<Digest>, totals: seq<nat>, chain: Option<Chain>)
    requires Fits(words, totals)
    ensures Consistent(Structural(words, totals).manifest.entries)
    ensures Completes(h, note, Structural(words, totals), chain, false)
    ensures Failures(h, note, Structural(words, totals), chain, false) == [] <==>
              AllConfirmed(chain, Map(PrefixRoot(h, Numbers(words)), totals))
  {
    StructuralReplay(h, words, totals);
    EntriesFit(Recomputes(note, map[]), words);
    PassIsExact(h, note, Structural(words, totals), chain, false);
  }

  // ----- passes that should fail -----------------------------------------------------------------------------

  /** Any words served without a call log pass an audit that was given no chain. */
  lemma {:induction false} UnconfirmedLogPasses(h: PairHash<Fr>, note: NoteHash, words: seq<Digest>)
    requires InField(words) && |words| < U64_LIMIT
    ensures Completes(h, note, Structural(words, []), None, false)
    ensures Failures(h, note, Structural(words, []), None, false) == []
  {
    StructuralRun(h, note, words, [], None);
  }

  /** The run against the contract's roots, without the storage check, completes and passes. */
  ghost predicate PassesAgainst(h: PairHash<Fr>, note: NoteHash, inputs: Inputs, c: Contract) {
    Completes(h, note, inputs, Some(ChainOf(c)), false) && Failures(h, note, inputs, Some(ChainOf(c)), false) == []
  }

  lemma {:induction false} RecordedPrefix(h: PairHash<Fr>, calls: seq<BondCall>, c: Contract, r: nat, words: seq<Digest>)
    requires Played(WordHash(h), calls, |calls|) == Some(c) && InField(c.commitments) && r < |calls|
    requires CountsLog(calls)[r] <= |words| && CountsLog(calls)[r] <= |c.commitments|
    requires words[..CountsLog(calls)[r]] == c.commitments[..CountsLog(calls)[r]]
    ensures 0 < CountsLog(calls)[r]
    ensures Confirms(Some(ChainOf(c)), PrefixRoot(h, Numbers(words))(CountsLog(calls)[r]))
  {
    var n := CountsLog(calls)[r];
    RebuiltAt(h, calls, c, r);
    assert Numbers(words)[..n] == Numbers(words[..n]) == Numbers(c.commitments)[..n];
    assert c.roots[r] in Elements(c.roots);
  }

  /** A server that cuts the call log it serves to one call can serve any words behind that call's leaves: with a
      manifest that states them, the run passes against the contract's own roots. */
  lemma {:induction false} CutCallLogPasses(h: PairHash<Fr>, note: NoteHash, calls: seq<BondCall>, c: Contract, r: nat,
                                            words: seq<Digest>)
    requires Played(WordHash(h), calls, |calls|) == Some(c) && InField(c.commitments) && r < |calls|
    requires InField(words) && |words| < U64_LIMIT
    requires CountsLog(calls)[r] <= |words| && CountsLog(calls)[r] <= |c.commitments|
    requires words[..CountsLog(calls)[r]] == c.commitments[..CountsLog(calls)[r]]
    ensures PassesAgainst(h, note, Structural(words, [CountsLog(calls)[r]]), c)
  {
    RecordedPrefix(h, calls, c, r, words);
    StructuralRun(h, note, words, [CountsLog(calls)[r]], Some(ChainOf(c)));
  }

  /** The first `n` words, the last of them twice. */
  function Again(words: seq<Digest>, n: nat): seq<Digest>
    requires 0 < n <= |words|
  {
    words[..n] + [words[n - 1]]
  }

  lemma AgainInField(words: seq<Digest>, n: nat)
    requires 0 < n <= |words| && InField(words)
    ensures InField(Again(words, n))
  {
    forall i | 0 <= i < n + 1 ensures FromBigEndian(Again(words, n)[i]) < ORDER {
      assert Again(words, n)[i] == words[if i < n then i else n - 1];
    }
  }

  lemma {:induction false} AgainRoot(h: PairHash<Fr>, words: seq<Digest>, n: nat)
    requires 3 <= n <= |words| && n % 2 == 1
    ensures PrefixRoot(h, Numbers(Again(words, n)))(n + 1) == PrefixRoot(h, Numbers(words))(n)
  {
    var leaves := Numbers(words)[..n];
    RepeatedLastLeaf(h, leaves);
    assert Numbers(Again(words, n))[..n + 1] == leaves + [leaves[n - 1]];
  }

  /** A leaf under the last boundary is not safe either: behind an odd recorded state of three leaves or more, its last
      leaf served once more, and counted, passes, whatever the contract stores there. */
  lemma {:induction false} RepeatedLeafPasses(h: PairHash<Fr>, note: NoteHash, calls: seq<BondCall>, c: Contract, r: nat)
    requires Played(WordHash(h), calls, |calls|) == Some(c) && InField(c.commitments) && r < |calls|
    requires 3 <= CountsLog(calls)[r] <= |c.commitments| && CountsLog(calls)[r] % 2 == 1
    requires CountsLog(calls)[r] + 1 < U64_LIMIT
    ensures var n := CountsLog(calls)[r];
            PassesAgainst(h, note, Structural(Again(c.commitments, n), [n + 1]), c)
  {
    hide Played, CountsLog, Completes, Failures, InField, Structural;
    var n := CountsLog(calls)[r];
    RecordedPrefix(h, calls, c, r, c.commitments);
    AgainInField(c.commitments, n);
    AgainRoot(h, c.commitments, n);
    StructuralRun(h, note, Again(c.commitments, n), [n + 1], Some(ChainOf(c)));
  }

  function AsWord(): Fr -> Digest { (f: Fr) => Word(f) }

  /** The nodes one level above the array as it was when it held `n` leaves. */
  function InnerWords(h: PairHash<Fr>, words: seq<Digest>, n: nat): seq<Digest>
    requires n <= |words|
  {
    Map(AsWord(), Level(h, Numbers(words)[..n]))
  }

  lemma {:induction false} InnerNumbers(h: PairHash<Fr>, words: seq<Digest>, n: nat)
    requires n <= |words|
    ensures InField(InnerWords(h, words, n)) && Numbers(InnerWords(h, words, n)) == Level(h, Numbers(words)[..n])
  {
    var nodes := Level(h, Numbers(words)[..n]);
    forall i | 0 <= i < |nodes|
      ensures FromBigEndian(InnerWords(h, words, n)[i]) < ORDER && Numbers(InnerWords(h, words, n))[i] == nodes[i]
    {
      WordInField(nodes[i]);
    }
  }

  /** Nor is the height of the tree: the nodes above a recorded state, served and counted as if they were leaves, pass. */
  lemma {:induction false} InnerNodesPass(h: PairHash<Fr>, note: NoteHash, calls: seq<BondCall>, c: Contract, r: nat)
    requires Played(WordHash(h), calls, |calls|) == Some(c) && InField(c.commitments) && r < |calls|
    requires 2 <= CountsLog(calls)[r] <= |c.commitments| && CountsLog(calls)[r] < U64_LIMIT
    ensures var nodes := InnerWords(h, c.commitments, CountsLog(calls)[r]);
            PassesAgainst(h, note, Structural(nodes, [|nodes|]), c)
  {
    hide Played, Structural, Completes, Failures, CountsLog, Confirms;
    var n := CountsLog(calls)[r];
    var nodes := InnerWords(h, c.commitments, n);
    InnerNumbers(h, c.commitments, n);
    RecordedPrefix(h, calls, c, r, c.commitments);
    assert Numbers(nodes)[..|nodes|] == Level(h, Numbers(c.commitments)[..n]);
    StructuralRun(h, note, nodes, [|nodes|], Some(ChainOf(c)));
  }

  /** The least case: two notes minted, the second forged in what is served, one call counted. */
  lemma {:induction false} ForgedLeafPasses(h: PairHash<Fr>, note: NoteHash, ctx: EthCall, a: Digest, b: Digest, forged: Digest)
    requires InField([a, b]) && InField([a, forged]) && forged != b
    ensures var played := Played(WordHash(h), [Mint(ctx, a), Mint(ctx, b)], 2);
            && played.Some? && played.value.commitments == [a, b]
            && PassesAgainst(h, note, Structural([a, forged], [1]), played.value)
  {
    var calls := [Mint(ctx, a), Mint(ctx, b)];
    TwoMints(h, ctx, a, b);
    var c := Played(WordHash(h), calls, 2).value;
    CutCallLogPasses(h, note, calls, c, 0, [a, forged]);
  }

  lemma TwoMints(h: PairHash<Fr>, ctx: EthCall, a: Digest, b: Digest)
    ensures var calls := [Mint(ctx, a), Mint(ctx, b)];
            && Played(WordHash(h), calls, 2).Some? && Played(WordHash(h), calls, 2).value.commitments == [a, b]
            && CountsLog(calls)[0] == 1
  {
    var calls := [Mint(ctx, a), Mint(ctx, b)];
    assert Played(WordHash(h), calls, 0) == Some(DEPLOYED);
    assert Played(WordHash(h), calls, 1).Some? && Played(WordHash(h), calls, 1).value.commitments == [a];
    assert LeafLog(calls, 0) == [];
    assert |LeafLog(calls, 1)| == 1;
  }
}
