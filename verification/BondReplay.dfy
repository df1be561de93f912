/** From a history of contract calls, through the index and the served page, back to the contract's roots. */
module BondReplay {
  import opened Basics
  import opened ByteCodec
  import opened Text
  import opened BondMapping
  import opened BondLog
  import opened BondContract
  import opened Merkle
  import opened ServedLog
  import opened FieldHex
  import opened CanonicalHex

  // ----- the rebuilt roots -----------------------------------------------------------

  function ServedNumber(): CommitmentEntity -> Result<Fr, FieldError> {
    (c: CommitmentEntity) => FrFromHex(c.value)
  }

  /** The served call boundaries, or the manifest's when none were served. */
  function Boundaries(served: seq<nat>, manifest: seq<nat>): seq<nat> { if served == [] then manifest else served }

  function PrefixRoot(h: PairHash<Fr>, leaves: seq<Fr>): nat -> Fr {
    (count: nat) => if 0 < count <= |leaves| then Root(h, leaves[..count]) else 0
  }

  /** The root after each call, rebuilt from what was served; `None` where the replay stops with an error. */
  ghost function RebuiltRoots(h: PairHash<Fr>, anchorSet: AnchorSet, manifest: seq<nat>): Option<seq<Fr>> {
    var ordered, counts := InOrder(anchorSet.commitments), Counts(anchorSet.calls);
    if ordered.None? || counts.None? then None
    else
      var leaves := AllOk(ServedNumber(), ordered.value);
      var boundaries := Boundaries(counts.value, manifest);
      if leaves.Err? || !InRange(boundaries, |leaves.value|) then None
      else Some(Map(PrefixRoot(h, leaves.value), boundaries))
  }

  datatype ReplayError = BadPage(page: ServedError) | BadLeaf(leaf: FieldError) | BadCount(count: MerkleError)

  /** The call boundaries replayed and the root rebuilt at each. */
  datatype Replay = Replay(counts: seq<nat>, roots: seq<Fr>)

  method ReplayRoots(h: PairHash<Fr>, anchorSet: AnchorSet, manifest: seq<nat>) returns (r: Result<Replay, ReplayError>)
    ensures RebuiltRoots(h, anchorSet, manifest) == if r.Ok? then Some(r.value.roots) else None
    ensures r.Ok? ==> Counts(anchorSet.calls).Some? && r.value.counts == Boundaries(Counts(anchorSet.calls).value, manifest)
    ensures r.Ok? ==> |r.value.counts| == |r.value.roots|
  {
    var ordered := OrderedCommitments(anchorSet.commitments);
    if ordered.Err? { return Err(BadPage(ordered.error)); }
    var leaves := CollectOk(ServedNumber(), ordered.value);
    if leaves.Err? { return Err(BadLeaf(leaves.error)); }
    var counts := LeafCountsAfterEachCall(anchorSet.calls);
    if counts.Err? { return Err(BadPage(counts.error)); }
    var boundaries := if counts.value == [] then manifest else counts.value;
    var roots := RootHistory(h, leaves.value, boundaries);
    if roots.Err? { return Err(BadCount(roots.error)); }
    assert roots.value == Map(PrefixRoot(h, leaves.value), boundaries);
    return Ok(Replay(boundaries, roots.value));
  }

  // ----- serving the store ---------------------------------------------------------------

  /** `page` lists every row of the table `m` once, in some order. */
  ghost predicate ListsAll<T(!new), E(!new)>(m: map<string, T>, page: seq<E>, render: ((string, T)) -> E) {
    exists rows :: IsListing(rows, m) && page == Map(render, rows)
  }

  ghost predicate IsListing<T(!new)>(rows: seq<(string, T)>, m: map<string, T>) {
    NoDup(rows) && forall row :: row in rows <==> row in m.Items
  }

  function LeafRow(): ((string, Commitment)) -> CommitmentEntity {
    (row: (string, Commitment)) => CommitmentEntity(row.0, Decimal(row.1.leafIndex), ToHex(row.1.value))
  }

  function CallRow(): ((string, LifecycleCall)) -> CallEntity {
    (row: (string, LifecycleCall)) => CallEntity(row.0, Decimal(row.1.leafCountAfter))
  }

  /** An honest page of the store, in whatever order the rows arrive. */
  ghost predicate ServesStore(anchorSet: AnchorSet, s: BondStore) {
    && ListsAll(s.commitments, anchorSet.commitments, LeafRow())
    && ListsAll(s.calls, anchorSet.calls, CallRow())
    && |anchorSet.nullifiers| == |s.nullifiers| && |anchorSet.rootsClaimed| == |s.roots|
  }

  /** The rows of a log in order. */
  function FiledRows<T>(log: seq<T>): (r: seq<(string, T)>)
    ensures |r| == |log|
  {
    seq(|log|, i requires 0 <= i < |log| => (Padded(i), log[i]))
  }

  lemma {:induction false} ListedLog<T(!new), E(!new)>(m: map<string, T>, log: seq<T>, page: seq<E>, render: ((string, T)) -> E)
    requires IsTable(m, log) && ListsAll(m, page, render)
    ensures multiset(page) == multiset(Map(render, FiledRows(log)))
    ensures |page| == |log|
  {
    var rows :| IsListing(rows, m) && page == Map(render, rows);
    var filed := FiledRows(log);
    FiledRowsListed(m, log);
    forall row ensures row in rows <==> row in filed { assert row in rows <==> row in m.Items; }
    SameElements(rows, filed);
    MapPermutes(render, rows, filed);
  }

  lemma {:induction false} FiledRowsListed<T(!new)>(m: map<string, T>, log: seq<T>)
    requires IsTable(m, log)
    ensures IsListing(FiledRows(log), m)
  {
    var filed := FiledRows(log);
    forall i, j | 0 <= i < j < |filed| ensures filed[i] != filed[j] {
      if Padded(i) == Padded(j) { PaddedInjective(i, j); }
    }
    forall row | row in filed ensures row in m.Items {
      var i: nat :| i < |filed| && filed[i] == row;
      assert Padded(i) in m && m[Padded(i)] == log[i];
    }
    forall row | row in m.Items ensures row in filed {
      assert row.0 in m && m[row.0] == row.1 && IsPosition(row.0, |log|);
      var i: nat :| i < |log| && row.0 == Padded(i);
      assert filed[i] == row;
    }
  }

  // ----- leaves back in order ----------------------------------------------------------------

  ghost predicate Positioned(log: seq<Commitment>) {
    forall i {:trigger log[i]} :: 0 <= i < |log| ==> log[i].leafIndex == i
  }

  lemma {:induction false} PagedLeavesInOrder(m: map<string, Commitment>, log: seq<Commitment>, page: seq<CommitmentEntity>)
    requires IsTable(m, log) && Positioned(log) && ListsAll(m, page, LeafRow()) && |page| < PAGE_LIMIT
    ensures InOrder(page) == Some(Map(LeafRow(), FiledRows(log)))
  {
    var xs := Map(LeafRow(), FiledRows(log));
    ListedLog(m, log, page, LeafRow());
    forall i | 0 <= i < |xs| ensures ParseU64(xs[i].leafIndex) == Some(i) {
      assert log[i].leafIndex == i;
      DecimalParses(i);
    }
    InOrderIs(page, xs);
  }

  /** Every word is in the field, or one of them is not. */
  ghost predicate InField(words: seq<Digest>) {
    forall i {:trigger words[i]} :: 0 <= i < |words| ==> FromBigEndian(words[i]) < ORDER
  }

  function WordNumber(): Digest -> Fr {
    (d: Digest) => if FromBigEndian(d) < ORDER then FromBigEndian(d) else 0
  }

  lemma LeafNumber(log: seq<Commitment>, i: nat)
    requires i < |log|
    ensures var d := Map(LeafValue(), log)[i];
            ServedNumber()(Map(LeafRow(), FiledRows(log))[i]) ==
              if FromBigEndian(d) < ORDER then Ok(WordNumber()(d)) else Err(NotInField)
  {
    WordReads(log[i].value);
  }

  /** The served values read back as the words' numbers, exactly if all of them are in the field. */
  lemma {:induction false} LeafNumbers(log: seq<Commitment>)
    ensures var words := Map(LeafValue(), log);
            ReadsAs(AllOk(ServedNumber(), Map(LeafRow(), FiledRows(log))), words)
  {
    var words, xs := Map(LeafValue(), log), Map(LeafRow(), FiledRows(log));
    forall i | 0 <= i < |log|
      ensures ServedNumber()(xs[i]) == if FromBigEndian(words[i]) < ORDER then Ok(WordNumber()(words[i])) else Err(NotInField)
    {
      LeafNumber(log, i);
    }
    ReadsAll(ServedNumber(), xs, words);
  }

  ghost predicate ReadsAs(read: Result<seq<Fr>, FieldError>, words: seq<Digest>) {
    (read.Ok? <==> InField(words)) && (read.Ok? ==> read.value == Map(WordNumber(), words))
  }

  lemma ReadsAll(read: CommitmentEntity -> Result<Fr, FieldError>, xs: seq<CommitmentEntity>, words: seq<Digest>)
    requires |xs| == |words|
    requires forall i {:trigger xs[i]} {:trigger words[i]} :: 0 <= i < |xs| ==>
               read(xs[i]) == if FromBigEndian(words[i]) < ORDER then Ok(WordNumber()(words[i])) else Err(NotInField)
    ensures ReadsAs(AllOk(read, xs), words)
  {
    AllOkIs(read, xs, |xs|);
    if AllOk(read, xs).Ok? {
      var ys := AllOk(read, xs).value;
      forall i | 0 <= i < |words| ensures FromBigEndian(words[i]) < ORDER && ys[i] == WordNumber()(words[i]) {
        assert read(xs[i]) == Ok(ys[i]);
      }
    }
  }

  // ----- calls back in order --------------------------------------------------------------------

  ghost predicate TellsApart<T(!new)>(le: (T, T) -> bool, xs: seq<T>) {
    forall x, y :: x in xs && y in xs && le(x, y) && le(y, x) ==> x == y
  }

  /** For an order that tells its elements apart, a list has one sorted arrangement. */
  lemma {:induction false} SortedUnique<T(!new)>(le: (T, T) -> bool, xs: seq<T>, ys: seq<T>)
    requires SortedBy(le, xs) && SortedBy(le, ys) && multiset(xs) == multiset(ys) && TellsApart(le, xs)
    ensures xs == ys
    decreases |xs|
  {
    assert |multiset(xs)| == |xs| && |multiset(ys)| == |ys|;
    if xs != [] {
      LastIsGreatest(le, xs, ys);
      InitIsSorted(le, xs);
      InitIsSorted(le, ys);
      SortedUnique(le, xs[..|xs| - 1], ys[..|ys| - 1]);
    }
  }

  lemma InitIsSorted<T(!new)>(le: (T, T) -> bool, xs: seq<T>)
    requires SortedBy(le, xs) && xs != []
    ensures xs == xs[..|xs| - 1] + [xs[|xs| - 1]]
    ensures SortedBy(le, xs[..|xs| - 1]) && (TellsApart(le, xs) ==> TellsApart(le, xs[..|xs| - 1]))
    ensures multiset(xs[..|xs| - 1]) == multiset(xs) - multiset{xs[|xs| - 1]}
  {
    var init := xs[..|xs| - 1];
    assert xs == init + [xs[|xs| - 1]];
    forall i, j | 0 <= i < j < |init| ensures le(init[i], init[j]) { assert le(xs[i], xs[j]); }
  }

  lemma {:induction false} LastIsGreatest<T(!new)>(le: (T, T) -> bool, xs: seq<T>, ys: seq<T>)
    requires SortedBy(le, xs) && SortedBy(le, ys) && multiset(xs) == multiset(ys) && |xs| == |ys| > 0
    requires TellsApart(le, xs)
    ensures xs[|xs| - 1] == ys[|ys| - 1]
  {
    var n := |xs| - 1;
    assert xs[n] in multiset(ys) && ys[n] in multiset(xs);
    var i :| 0 <= i <= n && xs[i] == ys[n];
    var j :| 0 <= j <= n && ys[j] == xs[n];
    if i < n && j < n { assert le(xs[i], xs[n]) && le(ys[j], ys[n]); }
  }

  ghost predicate PaddedIds(xs: seq<CallEntity>) {
    |xs| <= 1_000_000_000_000 && forall i {:trigger xs[i]} :: 0 <= i < |xs| ==> xs[i].id == Padded(i)
  }

  /** Padded ids in numeric order are in text order, in whatever order they arrive. */
  lemma {:induction false} IdsInOrder(xs: seq<CallEntity>, page: seq<CallEntity>)
    requires PaddedIds(xs) && multiset(page) == multiset(xs)
    ensures CallsInOrder(page) == xs
  {
    ByIdOrders();
    SortSorts(ById(), page);
    forall i, j | 0 <= i < j < |xs| ensures ById()(xs[i], xs[j]) { PaddedOrder(i, j); }
    forall x, y | x in xs && y in xs && ById()(x, y) && ById()(y, x) ensures x == y {
      var i :| 0 <= i < |xs| && xs[i] == x;
      var j :| 0 <= j < |xs| && xs[j] == y;
      LexLessTotal(x.id, y.id);
      PaddedInjective(i, j);
    }
    SortedUnique(ById(), xs, CallsInOrder(page));
  }

  /** Ids in execution order are in text order, as long as they fit the padding. */
  lemma {:induction false} PagedCallsInOrder(m: map<string, LifecycleCall>, log: seq<LifecycleCall>, page: seq<CallEntity>)
    requires IsTable(m, log) && ListsAll(m, page, CallRow()) && |log| <= 1_000_000_000_000
    ensures CallsInOrder(page) == Map(CallRow(), FiledRows(log))
  {
    ListedLog(m, log, page, CallRow());
    IdsInOrder(Map(CallRow(), FiledRows(log)), page);
  }

  /** The running totals a call log records. */
  function LeafTotals(log: seq<LifecycleCall>): (r: seq<nat>)
    ensures |r| == |log|
  {
    seq(|log|, i requires 0 <= i < |log| => log[i].leafCountAfter)
  }

  ghost predicate NeverFalls(counts: seq<nat>) {
    forall i, j :: 0 <= i < j < |counts| ==> counts[i] <= counts[j]
  }

  lemma {:induction false} ServedCounts(page: seq<CallEntity>, totals: seq<nat>)
    requires NeverFalls(totals) && |CallsInOrder(page)| == |totals|
    requires forall i {:trigger totals[i]} :: 0 <= i < |totals| ==>
               totals[i] < U64_LIMIT && CallsInOrder(page)[i].leafCountAfter == Decimal(totals[i])
    ensures Counts(page) == Some(totals)
  {
    var xs := CallsInOrder(page);
    forall i | 0 <= i < |xs| ensures ParseU64(xs[i].leafCountAfter) == Some(totals[i]) && CountOf()(xs[i]) == totals[i] {
      DecimalParses(totals[i]);
    }
    forall i, j | 0 <= i < j < |xs| ensures CountOf()(xs[i]) <= CountOf()(xs[j]) { assert totals[i] <= totals[j]; }
    assert Map(CountOf(), xs) == totals;
  }

  /** The running leaf totals of a history. */
  function CountsLog(calls: seq<BondCall>): (r: seq<nat>)
    ensures |r| == |calls|
  {
    seq(|calls|, i requires 0 <= i < |calls| => |LeafLog(calls, i + 1)|)
  }

  lemma {:induction false} TotalsAreCounts(env: Env, calls: seq<BondCall>)
    ensures LeafTotals(CallLog(env, calls, |calls|)) == CountsLog(calls) && NeverFalls(CountsLog(calls))
    ensures forall i :: 0 <= i < |calls| ==> CountsLog(calls)[i] <= |LeafLog(calls, |calls|)|
  {
    hide LeafLog;
    forall i | 0 <= i < |calls|
      ensures LeafTotals(CallLog(env, calls, |calls|))[i] == CountsLog(calls)[i] <= |LeafLog(calls, |calls|)|
    {
      CallEntry(env, calls, |calls|, i);
      LogGrows(calls, i + 1, |calls|);
    }
    forall i, j | 0 <= i < j < |calls| ensures CountsLog(calls)[i] <= CountsLog(calls)[j] { LogGrows(calls, i + 1, j + 1); }
  }

  // ----- the contract's hash over 32-byte words --------------------------------------------------

  function Word(f: Fr): Digest { BigEndian(32, f) }

  /** The contract hashes words, each taken modulo the field order. */
  function WordHash(h: PairHash<Fr>): PairHash<Digest> {
    (a: Digest, b: Digest) => Word(h(FromBigEndian(a) % ORDER, FromBigEndian(b) % ORDER))
  }

  lemma {:induction false} WordInField(f: Fr)
    ensures FromBigEndian(Word(f)) == f
  {
    OrderFits();
    DecodeEncodeInt(32, f);
  }

  lemma {:induction false} LevelOfWords(h: PairHash<Fr>, words: seq<Digest>)
    requires InField(words)
    ensures InField(Level(WordHash(h), words))
    ensures Map(WordNumber(), Level(WordHash(h), words)) == Level(h, Map(WordNumber(), words))
  {
    var level, numbers := Level(WordHash(h), words), Map(WordNumber(), words);
    forall i | 0 <= i < |level|
      ensures FromBigEndian(level[i]) < ORDER && WordNumber()(level[i]) == Level(h, numbers)[i]
    {
      PairOfWords(h, words, 2 * i);
    }
  }

  lemma {:induction false} PairOfWords(h: PairHash<Fr>, words: seq<Digest>, i: nat)
    requires InField(words) && i < |words|
    ensures Pair(WordHash(h), words, i) == Word(Pair(h, Map(WordNumber(), words), i))
    ensures FromBigEndian(Pair(WordHash(h), words, i)) == Pair(h, Map(WordNumber(), words), i)
  {
    var a, b := words[i], if i + 1 < |words| then words[i + 1] else words[i];
    assert FromBigEndian(a) < ORDER && FromBigEndian(b) < ORDER;
    WordInField(Pair(h, Map(WordNumber(), words), i));
  }

  /** Over in-field words the contract's root and the replay's are the same number. */
  lemma {:induction false} RootOfWords(h: PairHash<Fr>, words: seq<Digest>)
    requires InField(words) && words != []
    ensures Root(WordHash(h), words) == Word(Root(h, Map(WordNumber(), words)))
    decreases |words|
  {
    if |words| == 1 {
      EncodeDecodeInt(words[0]);
    } else {
      LevelOfWords(h, words);
      RootOfWords(h, Level(WordHash(h), words));
    }
  }

  // ----- the refinement ----------------------------------------------------------------------------

  function RootWord(): Fr -> Digest { (f: Fr) => Word(f) }

  lemma {:induction false} RebuiltAt(h: PairHash<Fr>, calls: seq<BondCall>, c: Contract, i: nat)
    requires Played(WordHash(h), calls, |calls|) == Some(c) && InField(c.commitments) && i < |calls|
    ensures var leaves, count := Map(WordNumber(), c.commitments), CountsLog(calls)[i];
            && 0 < count <= |leaves| && i < |c.roots|
            && c.roots[i] == Word(PrefixRoot(h, leaves)(count))
  {
    hide Played;
    RootAfterCall(WordHash(h), calls, |calls|, i);
    var count := CountsLog(calls)[i];
    var words := c.commitments[..count];
    forall k | 0 <= k < |words| ensures FromBigEndian(words[k]) < ORDER { assert words[k] == c.commitments[k]; }
    RootOfWords(h, words);
    assert Map(WordNumber(), words) == Map(WordNumber(), c.commitments)[..count];
  }

  lemma {:induction false} RebuiltAreRecorded(h: PairHash<Fr>, calls: seq<BondCall>, c: Contract)
    requires Played(WordHash(h), calls, |calls|) == Some(c) && InField(c.commitments)
    ensures InRange(CountsLog(calls), |c.commitments|)
    ensures Map(RootWord(), Map(PrefixRoot(h, Map(WordNumber(), c.commitments)), CountsLog(calls))) == c.roots
  {
    LeavesAreCommitments(WordHash(h), calls, |calls|);
    forall i | 0 <= i < |calls|
      ensures 0 < CountsLog(calls)[i] <= |c.commitments|
      ensures RootWord()(PrefixRoot(h, Map(WordNumber(), c.commitments))(CountsLog(calls)[i])) == c.roots[i]
    {
      RebuiltAt(h, calls, c, i);
    }
  }

  lemma {:induction false} LeavesReadBack(m: map<string, Commitment>, log: seq<Commitment>, page: seq<CommitmentEntity>)
    requires IsTable(m, log) && Positioned(log) && ListsAll(m, page, LeafRow()) && |page| < PAGE_LIMIT
    ensures InOrder(page).Some? && |InOrder(page).value| == |log| < PAGE_LIMIT
    ensures ReadsAs(AllOk(ServedNumber(), InOrder(page).value), Map(LeafValue(), log))
  {
    PagedLeavesInOrder(m, log, page);
    ListedLog(m, log, page, LeafRow());
    LeafNumbers(log);
  }

  lemma {:induction false} CountsReadBack(m: map<string, LifecycleCall>, log: seq<LifecycleCall>, page: seq<CallEntity>)
    requires IsTable(m, log) && ListsAll(m, page, CallRow()) && |page| < PAGE_LIMIT && NeverFalls(LeafTotals(log))
    requires forall i :: 0 <= i < |log| ==> LeafTotals(log)[i] < U64_LIMIT
    ensures Counts(page) == Some(LeafTotals(log))
  {
    ListedLog(m, log, page, CallRow());
    PagedCallsInOrder(m, log, page);
    ServedCounts(page, LeafTotals(log));
  }

  /** What the replay reads off an honest page of two logs, in any arrival order. */
  lemma {:induction false} PageReadsBack(s: BondStore, leaves: seq<Commitment>, calls: seq<LifecycleCall>, anchorSet: AnchorSet)
    requires IsTable(s.commitments, leaves) && Positioned(leaves)
    requires IsTable(s.calls, calls) && NeverFalls(LeafTotals(calls))
    requires forall i :: 0 <= i < |calls| ==> LeafTotals(calls)[i] <= |leaves|
    requires ServesStore(anchorSet, s) && WithinPage(anchorSet)
    ensures InOrder(anchorSet.commitments).Some? && Counts(anchorSet.calls) == Some(LeafTotals(calls))
    ensures |InOrder(anchorSet.commitments).value| == |leaves|
    ensures ReadsAs(AllOk(ServedNumber(), InOrder(anchorSet.commitments).value), Map(LeafValue(), leaves))
  {
    LeavesReadBack(s.commitments, leaves, anchorSet.commitments);
    CountsReadBack(s.calls, calls, anchorSet.calls);
  }

  lemma {:induction false} HistoryReadsBack(env: Env, h: PairHash<Fr>, calls: seq<BondCall>, c: Contract, anchorSet: AnchorSet)
    requires Played(WordHash(h), calls, |calls|) == Some(c)
    requires ServesStore(anchorSet, StoreAfter(env, calls, |calls|)) && WithinPage(anchorSet)
    ensures InOrder(anchorSet.commitments).Some? && Counts(anchorSet.calls) == Some(CountsLog(calls))
    ensures |InOrder(anchorSet.commitments).value| == |c.commitments|
    ensures ReadsAs(AllOk(ServedNumber(), InOrder(anchorSet.commitments).value), c.commitments)
  {
    var log := LeafLog(calls, |calls|);
    IndexIsLogged(env, calls, |calls|);
    LeavesAreCommitments(WordHash(h), calls, |calls|);
    TotalsAreCounts(env, calls);
    forall i | 0 <= i < |log| ensures log[i].leafIndex == i { LeafPositions(calls, |calls|, i); }
    PageReadsBack(StoreAfter(env, calls, |calls|), log, CallLog(env, calls, |calls|), anchorSet);
  }

  /** The bond replay refines the contract: for every history without a revert, served within the page limit in any
      order, the replay rebuilds exactly the sequence of roots the contract recorded, if and only if every commitment
      is a field element; otherwise it stops with an error. */
  lemma {:induction false} ReplayRebuildsRoots(env: Env, h: PairHash<Fr>, calls: seq<BondCall>, c: Contract,
                                               anchorSet: AnchorSet, manifest: seq<nat>)
    requires calls != [] && Played(WordHash(h), calls, |calls|) == Some(c)
    requires ServesStore(anchorSet, StoreAfter(env, calls, |calls|)) && WithinPage(anchorSet)
    ensures RebuiltRoots(h, anchorSet, manifest).Some? <==> InField(c.commitments)
    ensures InField(c.commitments) ==> Map(RootWord(), RebuiltRoots(h, anchorSet, manifest).value) == c.roots
  {
    hide Played, ServesStore, WithinPage;
    HistoryReadsBack(env, h, calls, c, anchorSet);
    assert Boundaries(CountsLog(calls), manifest) == CountsLog(calls);
    if InField(c.commitments) { RebuiltAreRecorded(h, calls, c); }
  }

  // ----- a serving layer that rewrites anchors ------------------------------------------------------

  /** The leaves a replay hashes, and the boundaries it hashes them at. */
  ghost function ReplayedLeaves(h: PairHash<Fr>, anchorSet: AnchorSet, manifest: seq<nat>): seq<Fr>
    requires RebuiltRoots(h, anchorSet, manifest).Some?
  {
    AllOk(ServedNumber(), InOrder(anchorSet.commitments).value).value
  }

  ghost function ReplayedAt(h: PairHash<Fr>, anchorSet: AnchorSet, manifest: seq<nat>): seq<nat>
    requires RebuiltRoots(h, anchorSet, manifest).Some?
  {
    Boundaries(Counts(anchorSet.calls).value, manifest)
  }

  /** Rewriting leaf `k`, and any later ones, whatever call log is served with them: at a boundary both replays have, the
      roots differ exactly if leaf `k` is under it, unless the pairs hashed collide. */
  lemma {:induction false} RewrittenAnchorsChangeRoots(h: PairHash<Fr>, honest: AnchorSet, manifest: seq<nat>,
                                                       lying: AnchorSet, claimed: seq<nat>, k: nat, i: nat, j: nat)
    requires RebuiltRoots(h, honest, manifest).Some? && RebuiltRoots(h, lying, claimed).Some?
    requires i < |ReplayedAt(h, honest, manifest)| && j < |ReplayedAt(h, lying, claimed)|
    requires ReplayedAt(h, honest, manifest)[i] == ReplayedAt(h, lying, claimed)[j]
    requires var xs, ys := ReplayedLeaves(h, honest, manifest), ReplayedLeaves(h, lying, claimed);
             var count := ReplayedAt(h, honest, manifest)[i];
             && k < |xs| && k < |ys| && xs[..k] == ys[..k] && xs[k] != ys[k]
             && (count <= |xs| && count <= |ys| ==> NoCollisions(h, Hashed(h, xs[..count]) + Hashed(h, ys[..count])))
    ensures i < |RebuiltRoots(h, honest, manifest).value| && j < |RebuiltRoots(h, lying, claimed).value|
    ensures RebuiltRoots(h, honest, manifest).value[i] != RebuiltRoots(h, lying, claimed).value[j]
            <==> ReplayedAt(h, honest, manifest)[i] > k
  {
    var xs, ys := ReplayedLeaves(h, honest, manifest), ReplayedLeaves(h, lying, claimed);
    RewrittenLeafChangesRoots(h, xs, ys, k, ReplayedAt(h, honest, manifest)[i]);
  }
}
