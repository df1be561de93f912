/** When the fallback index agrees with the call-handler index, and what its cap costs. */
module FallbackTheorems {
  import opened Basics
  import opened ByteCodec
  import opened Text
  import opened BondMapping
  import opened BondLog
  import opened BondContract
  import opened Merkle
  import opened MerkleShape
  import opened ServedLog
  import opened FieldHex
  import opened BondReplay
  import opened RecordedRoots
  import opened FallbackMapping
  import opened FallbackLog

  // ----- always a prefix ----------------------------------------------------------------

  lemma {:induction false} ReachedInArray(views: seq<BlockView>, n: nat)
    requires 0 < n <= |views| && Grows(views)
    ensures Reached(views, n) <= |views[n - 1].leaves|
  {
    if n > 1 {
      ReachedInArray(views, n - 1);
      assert views[n - 2].leaves <= views[n - 1].leaves;
    }
  }

  lemma {:induction false} WalkedValues(address: Bytes, view: BlockView, k: nat, from: nat)
    ensures Map(LeafValue(), WalkedLeaves(address, view, k, from)) == NewLeaves(from, view)
  {}

  lemma TakenExtends(view: BlockView, from: nat)
    requires from <= |view.leaves|
    ensures from + Taken(from, view) <= |view.leaves|
    ensures view.leaves[..from] + NewLeaves(from, view) == view.leaves[..from + Taken(from, view)]
  {}

  lemma SharedPrefix<T>(xs: seq<T>, ys: seq<T>, n: nat)
    requires xs <= ys && n <= |xs|
    ensures xs[..n] == ys[..n]
  {}

  /** After every block the indexed leaves are exactly a prefix of the contract's array. */
  lemma {:induction false} AlwaysAPrefix(address: Bytes, views: seq<BlockView>, n: nat)
    requires 0 < n <= |views| && Grows(views)
    ensures Reached(views, n) <= |views[n - 1].leaves|
    ensures Map(LeafValue(), WalkLeaves(address, views, n)) == views[n - 1].leaves[..Reached(views, n)]
  {
    ReachedInArray(views, n);
    var below, from, view := WalkLeaves(address, views, n - 1), Reached(views, n - 1), views[n - 1];
    var added := WalkedLeaves(address, view, |WalkCalls(views, n - 1)|, from);
    WalkedValues(address, view, |WalkCalls(views, n - 1)|, from);
    MapConcat(LeafValue(), below, added);
    if n > 1 {
      AlwaysAPrefix(address, views, n - 1);
      SharedPrefix(views[n - 2].leaves, view.leaves, from);
    }
    TakenExtends(view, from);
  }

  lemma {:induction false} WalkPositions(address: Bytes, views: seq<BlockView>, n: nat)
    requires n <= |views|
    ensures Positioned(WalkLeaves(address, views, n))
  {
    if n > 0 {
      WalkPositions(address, views, n - 1);
      forall i | 0 <= i < |WalkLeaves(address, views, n)| ensures WalkLeaves(address, views, n)[i].leafIndex == i {
        WalkedAt(address, views, n, i);
      }
    }
  }

  lemma {:induction false} WalkedAt(address: Bytes, views: seq<BlockView>, n: nat, i: nat)
    requires 0 < n <= |views| && i < |WalkLeaves(address, views, n)| && Positioned(WalkLeaves(address, views, n - 1))
    ensures WalkLeaves(address, views, n)[i].leafIndex == i
  {
    var below := WalkLeaves(address, views, n - 1);
    if i < |below| { assert WalkLeaves(address, views, n)[i] == below[i]; }
  }

  // ----- totals ---------------------------------------------------------------------------

  ghost predicate IsReached(views: seq<BlockView>, n: nat, total: nat)
    requires n <= |views|
  {
    exists i :: 0 < i <= n && total == Reached(views, i)
  }

  /** The totals rise strictly; each is the count some block left, and the last is the count now. */
  lemma {:induction false} TotalsRise(views: seq<BlockView>, n: nat)
    requires n <= |views|
    ensures var totals := LeafTotals(WalkCalls(views, n));
            && (forall i, j :: 0 <= i < j < |totals| ==> totals[i] < totals[j])
            && (forall i :: 0 <= i < |totals| ==> 0 < totals[i] <= Reached(views, n) && IsReached(views, n, totals[i]))
            && (if totals == [] then Reached(views, n) == 0 else totals[|totals| - 1] == Reached(views, n))
  {
    hide Taken;
    if n > 0 {
      TotalsRise(views, n - 1);
      var before, totals := LeafTotals(WalkCalls(views, n - 1)), LeafTotals(WalkCalls(views, n));
      if Taken(Reached(views, n - 1), views[n - 1]) == 0 {
        assert totals == before;
      } else {
        assert totals == before + [Reached(views, n)];
      }
      forall i | 0 <= i < |totals| ensures IsReached(views, n, totals[i]) {
        if i < |before| {
          assert IsReached(views, n - 1, before[i]);
          var b :| 0 < b <= n - 1 && before[i] == Reached(views, b);
          assert totals[i] == Reached(views, b);
        }
      }
    }
  }

  // ----- catching up ------------------------------------------------------------------------

  /** From block `n` on, `k` blocks see the same array. */
  ghost predicate Quiet(views: seq<BlockView>, n: nat, k: nat, leaves: seq<Digest>) {
    n + k <= |views| && forall j :: n <= j < n + k ==> views[j].leaves == leaves
  }

  lemma {:induction false} QuietBlocks(views: seq<BlockView>, n: nat, k: nat, leaves: seq<Digest>)
    requires Quiet(views, n, k, leaves) && Reached(views, n) <= |leaves|
    ensures Reached(views, n + k) ==
              if Reached(views, n) + MAX_NEW_LEAVES_PER_BLOCK * k <= |leaves|
              then Reached(views, n) + MAX_NEW_LEAVES_PER_BLOCK * k else |leaves|
  {
    if k > 0 { QuietBlocks(views, n, k - 1, leaves); }
  }

  /** A backlog of `b` leaves is gone after `k` quiet blocks if and only if `k` is at least `b / 512` rounded up. */
  lemma {:induction false} BacklogDrains(views: seq<BlockView>, n: nat, k: nat, leaves: seq<Digest>)
    requires Quiet(views, n, k, leaves) && Reached(views, n) <= |leaves|
    ensures var backlog := |leaves| - Reached(views, n);
            Reached(views, n + k) == |leaves| <==> k >= (backlog + MAX_NEW_LEAVES_PER_BLOCK - 1) / MAX_NEW_LEAVES_PER_BLOCK
  {
    QuietBlocks(views, n, k, leaves);
  }

  /** How many leaves block `i` added to the array. */
  function Added(views: seq<BlockView>, i: nat): int
    requires i < |views|
  {
    |views[i].leaves| - if i == 0 then 0 else |views[i - 1].leaves|
  }

  /** The index is level with the array at every block end if and only if no block adds more leaves than the cap. */
  lemma {:induction false} LevelAtEveryBlock(views: seq<BlockView>, n: nat)
    requires n <= |views| && Grows(views)
    ensures (forall i :: 0 <= i < n ==> Reached(views, i + 1) == |views[i].leaves|)
            <==> (forall i :: 0 <= i < n ==> Added(views, i) <= MAX_NEW_LEAVES_PER_BLOCK)
  {
    if n > 0 {
      LevelAtEveryBlock(views, n - 1);
      LevelAtBlock(views, n - 1);
    }
  }

  lemma LevelAtBlock(views: seq<BlockView>, i: nat)
    requires i < |views| && Grows(views)
    ensures (i > 0 ==> Reached(views, i) == |views[i - 1].leaves|) ==>
              (Reached(views, i + 1) == |views[i].leaves| <==> Added(views, i) <= MAX_NEW_LEAVES_PER_BLOCK)
  {
    if i > 0 { assert views[i - 1].leaves <= views[i].leaves; }
  }

  // ----- beside the call handlers -------------------------------------------------------------

  /** Block `i` shows the contract after the first `ends[i]` calls of one history without a revert. */
  ghost predicate Watches(h: PairHash<Digest>, calls: seq<BondCall>, ends: seq<nat>, views: seq<BlockView>) {
    && Played(h, calls, |calls|).Some? && |ends| == |views|
    && (forall i, j :: 0 <= i <= j < |ends| ==> ends[i] <= ends[j] <= |calls|)
    && (forall i :: 0 <= i < |views| ==> Shows(h, calls, ends[i], views[i]))
  }

  ghost predicate Shows(h: PairHash<Digest>, calls: seq<BondCall>, end: nat, view: BlockView) {
    && end <= |calls| && Played(h, calls, end).Some? && view.leaves == Played(h, calls, end).value.commitments
    && (view.bondId.None? ==> view.leaves == [])
  }

  lemma {:induction false} WatchedArrayGrows(h: PairHash<Digest>, calls: seq<BondCall>, ends: seq<nat>, views: seq<BlockView>)
    requires Watches(h, calls, ends, views)
    ensures Grows(views)
  {
    forall i, j | 0 <= i <= j < |views| ensures views[i].leaves <= views[j].leaves {
      assert Shows(h, calls, ends[i], views[i]) && Shows(h, calls, ends[j], views[j]);
      PlayedBefore(h, calls, ends[i], ends[j]);
    }
    forall i | 0 <= i < |views| && views[i].bondId.None? ensures views[i].leaves == [] {
      assert Shows(h, calls, ends[i], views[i]);
    }
  }

  lemma {:induction false} ShownCount(h: PairHash<Digest>, calls: seq<BondCall>, end: nat, view: BlockView)
    requires Shows(h, calls, end, view)
    ensures view.leaves == Map(LeafValue(), LeafLog(calls, end)) && |view.leaves| == |LeafLog(calls, end)|
  {
    LeavesAreCommitments(h, calls, end);
  }

  ghost predicate WithinCap(views: seq<BlockView>, n: nat)
    requires n <= |views|
  {
    forall i :: 0 <= i < n ==> Added(views, i) <= MAX_NEW_LEAVES_PER_BLOCK
  }

  /** While no block adds more leaves than the cap, the log is the call handlers' log at every block end, and every
      total it records is a total some call left. */
  lemma {:induction false} AgreesWithCallHandlers(h: PairHash<Digest>, calls: seq<BondCall>, ends: seq<nat>,
                                                  address: Bytes, views: seq<BlockView>, n: nat)
    requires Watches(h, calls, ends, views) && 0 < n <= |views| && WithinCap(views, n)
    ensures Map(LeafValue(), WalkLeaves(address, views, n)) == Map(LeafValue(), LeafLog(calls, ends[n - 1]))
    ensures forall i :: 0 <= i < |WalkCalls(views, n)| ==> IsBoundary(calls, LeafTotals(WalkCalls(views, n))[i])
  {
    WatchedArrayGrows(h, calls, ends, views);
    LevelAtEveryBlock(views, n);
    AlwaysAPrefix(address, views, n);
    assert Shows(h, calls, ends[n - 1], views[n - 1]);
    ShownCount(h, calls, ends[n - 1], views[n - 1]);
    TotalsRise(views, n);
    var totals := LeafTotals(WalkCalls(views, n));
    forall i | 0 <= i < |totals| ensures IsBoundary(calls, totals[i]) {
      assert IsReached(views, n, totals[i]) && totals[i] > 0;
      var b :| 0 < b <= n && totals[i] == Reached(views, b);
      assert Shows(h, calls, ends[b - 1], views[b - 1]);
      ShownCount(h, calls, ends[b - 1], views[b - 1]);
      BlockEndIsBoundary(calls, ends[b - 1]);
    }
  }

  /** After block `m` the fallback log is the call handlers' log. */
  ghost predicate SameLog(calls: seq<BondCall>, ends: seq<nat>, address: Bytes, views: seq<BlockView>, m: nat) {
    && 0 < m <= |views| && |ends| == |views| && ends[m - 1] <= |calls|
    && Map(LeafValue(), WalkLeaves(address, views, m)) == Map(LeafValue(), LeafLog(calls, ends[m - 1]))
  }

  /** The two logs agree at every block end if and only if no block adds more leaves than the cap. */
  lemma {:induction false} AgreeExactly(h: PairHash<Digest>, calls: seq<BondCall>, ends: seq<nat>,
                                        address: Bytes, views: seq<BlockView>, n: nat)
    requires Watches(h, calls, ends, views) && n <= |views|
    ensures (forall m :: 0 < m <= n ==> SameLog(calls, ends, address, views, m)) <==> WithinCap(views, n)
  {
    hide SameLog, WalkLeaves, LeafLog, Shows, Played;
    WatchedArrayGrows(h, calls, ends, views);
    LevelAtEveryBlock(views, n);
    if WithinCap(views, n) {
      forall m | 0 < m <= n ensures SameLog(calls, ends, address, views, m) {
        SameLogWithinCap(h, calls, ends, address, views, m);
      }
    }
    if forall m :: 0 < m <= n ==> SameLog(calls, ends, address, views, m) {
      forall i | 0 <= i < n ensures Reached(views, i + 1) == |views[i].leaves| {
        assert SameLog(calls, ends, address, views, i + 1);
        SameLogIsLevel(h, calls, ends, address, views, i + 1);
      }
    }
  }

  lemma SameLogWithinCap(h: PairHash<Digest>, calls: seq<BondCall>, ends: seq<nat>, address: Bytes, views: seq<BlockView>, m: nat)
    requires Watches(h, calls, ends, views) && 0 < m <= |views| && WithinCap(views, m)
    ensures SameLog(calls, ends, address, views, m)
  {
    AgreesWithCallHandlers(h, calls, ends, address, views, m);
  }

  lemma SameLogIsLevel(h: PairHash<Digest>, calls: seq<BondCall>, ends: seq<nat>, address: Bytes, views: seq<BlockView>, m: nat)
    requires Watches(h, calls, ends, views) && SameLog(calls, ends, address, views, m)
    ensures Reached(views, m) == |views[m - 1].leaves|
  {
    assert Shows(h, calls, ends[m - 1], views[m - 1]);
    ShownCount(h, calls, ends[m - 1], views[m - 1]);
    assert |Map(LeafValue(), WalkLeaves(address, views, m))| == Reached(views, m);
  }

  lemma BlockEndIsBoundary(calls: seq<BondCall>, end: nat)
    requires end <= |calls| && |LeafLog(calls, end)| > 0
    ensures IsBoundary(calls, |LeafLog(calls, end)|)
  {
    assert end > 0;
  }

  /** Entity by entity: the same ids, at the same leaf indices, with the same values. */
  lemma {:induction false} SameCommitmentEntities(env: Env, h: PairHash<Digest>, calls: seq<BondCall>, ends: seq<nat>,
                                                  address: Bytes, views: seq<BlockView>, n: nat)
    requires Watches(h, calls, ends, views) && 0 < n <= |views| && WithinCap(views, n)
    ensures var a, b := RunBlocks(address, views, n).commitments, StoreAfter(env, calls, ends[n - 1]).commitments;
            a.Keys == b.Keys && forall id :: id in a ==> a[id].leafIndex == b[id].leafIndex && a[id].value == b[id].value
  {
    var end := ends[n - 1];
    WatchedArrayGrows(h, calls, ends, views);
    AgreesWithCallHandlers(h, calls, ends, address, views, n);
    IndexIsWalked(address, views, n);
    IndexIsLogged(env, calls, end);
    WalkPositions(address, views, n);
    forall i | 0 <= i < |LeafLog(calls, end)| ensures LeafLog(calls, end)[i].leafIndex == i { LeafPositions(calls, end, i); }
    SameTables(RunBlocks(address, views, n).commitments, WalkLeaves(address, views, n),
               StoreAfter(env, calls, end).commitments, LeafLog(calls, end));
  }

  lemma {:induction false} SameTables(a: map<string, Commitment>, xs: seq<Commitment>, b: map<string, Commitment>, ys: seq<Commitment>)
    requires IsTable(a, xs) && IsTable(b, ys) && Positioned(xs) && Positioned(ys)
    requires Map(LeafValue(), xs) == Map(LeafValue(), ys)
    ensures a.Keys == b.Keys && forall id :: id in a ==> a[id].leafIndex == b[id].leafIndex && a[id].value == b[id].value
  {
    assert |xs| == |Map(LeafValue(), xs)| == |ys|;
    forall id | id in a ensures id in b && a[id].leafIndex == b[id].leafIndex && a[id].value == b[id].value {
      SameEntity(a, xs, b, ys, id);
    }
    forall id | id in b ensures id in a { SameEntity(b, ys, a, xs, id); }
  }

  lemma SameEntity(a: map<string, Commitment>, xs: seq<Commitment>, b: map<string, Commitment>, ys: seq<Commitment>, id: string)
    requires IsTable(a, xs) && IsTable(b, ys) && Positioned(xs) && Positioned(ys)
    requires Map(LeafValue(), xs) == Map(LeafValue(), ys) && |xs| == |ys| && id in a
    ensures id in b && a[id].leafIndex == b[id].leafIndex && a[id].value == b[id].value
  {
    assert IsPosition(id, |xs|);
    var i: nat :| i < |xs| && id == Padded(i);
    assert a[id] == xs[i] && b[id] == ys[i];
    assert Map(LeafValue(), xs)[i] == xs[i].value && Map(LeafValue(), ys)[i] == ys[i].value;
  }

  // ----- the replay over a fallback index ---------------------------------------------------------

  lemma {:induction false} FallbackLeaves(h: PairHash<Fr>, calls: seq<BondCall>, c: Contract, ends: seq<nat>,
                                          address: Bytes, views: seq<BlockView>, n: nat)
    requires Watches(WordHash(h), calls, ends, views) && 0 < n <= |views|
    requires Played(WordHash(h), calls, |calls|) == Some(c) && InField(c.commitments)
    ensures Reached(views, n) <= |c.commitments|
    ensures Map(LeafValue(), WalkLeaves(address, views, n)) == c.commitments[..Reached(views, n)]
    ensures InField(c.commitments[..Reached(views, n)])
  {
    WatchedArrayGrows(WordHash(h), calls, ends, views);
    AlwaysAPrefix(address, views, n);
    assert Shows(WordHash(h), calls, ends[n - 1], views[n - 1]);
    PlayedBefore(WordHash(h), calls, ends[n - 1], |calls|);
    var words := c.commitments[..Reached(views, n)];
    forall k | 0 <= k < |words| ensures FromBigEndian(words[k]) < ORDER { assert words[k] == c.commitments[k]; }
  }

  /** What an honestly served fallback index reads back as: the array's prefix and the walked totals. */
  lemma {:induction false} FallbackReadsBack(h: PairHash<Fr>, calls: seq<BondCall>, c: Contract, ends: seq<nat>,
      address: Bytes, views: seq<BlockView>, n: nat, anchorSet: AnchorSet)
    requires Watches(WordHash(h), calls, ends, views) && 0 < n <= |views|
    requires Played(WordHash(h), calls, |calls|) == Some(c) && InField(c.commitments)
    requires ServesStore(anchorSet, RunBlocks(address, views, n)) && WithinPage(anchorSet)
    ensures InOrder(anchorSet.commitments).Some? && Reached(views, n) <= |c.commitments|
    ensures AllOk(ServedNumber(), InOrder(anchorSet.commitments).value) == Ok(Numbers(c.commitments)[..Reached(views, n)])
    ensures Counts(anchorSet.calls) == Some(LeafTotals(WalkCalls(views, n)))
  {
    hide RunBlocks, Played, Watches, Reached, IsTable, Root;
    var s, leaves, log := RunBlocks(address, views, n), WalkLeaves(address, views, n), WalkCalls(views, n);
    WatchedArrayGrows(WordHash(h), calls, ends, views);
    IndexIsWalked(address, views, n);
    WalkPositions(address, views, n);
    TotalsRise(views, n);
    PageReadsBack(s, leaves, log, anchorSet);
    FallbackLeaves(h, calls, c, ends, address, views, n);
    assert Numbers(Map(LeafValue(), leaves)) == Numbers(c.commitments)[..Reached(views, n)];
  }

  /** The replay of such an index stops only where nothing was indexed and the manifest lists a boundary all the same.
      Otherwise it rebuilds the root of the array's prefix at every total. */
  lemma {:induction false} FallbackReplays(h: PairHash<Fr>, calls: seq<BondCall>, c: Contract, ends: seq<nat>,
      address: Bytes, views: seq<BlockView>, n: nat, anchorSet: AnchorSet, manifest: seq<nat>)
    requires Watches(WordHash(h), calls, ends, views) && 0 < n <= |views|
    requires Played(WordHash(h), calls, |calls|) == Some(c) && InField(c.commitments)
    requires ServesStore(anchorSet, RunBlocks(address, views, n)) && WithinPage(anchorSet)
    ensures RebuiltRoots(h, anchorSet, manifest).Some? <==> WalkCalls(views, n) != [] || manifest == []
    ensures RebuiltRoots(h, anchorSet, manifest).Some? ==>
              Replays(h, c.commitments, LeafTotals(WalkCalls(views, n)), RebuiltRoots(h, anchorSet, manifest).value)
  {
    hide RunBlocks, Played, Watches, Reached, Root, ServesStore, InOrder, WalkCalls, Counts, Numbers;
    var totals, reached := LeafTotals(WalkCalls(views, n)), Reached(views, n);
    FallbackReadsBack(h, calls, c, ends, address, views, n, anchorSet);
    TotalsRise(views, n);
    assert |totals| == |WalkCalls(views, n)|;
    if totals == [] && manifest != [] { assert !InRange(manifest, 0) by { assert manifest[0] in manifest; } }
    forall i | 0 <= i < |totals|
      ensures 0 < totals[i] <= reached
      ensures Numbers(c.commitments)[..reached][..totals[i]] == Numbers(c.commitments)[..totals[i]]
    {}
  }

  /** Whatever its blocks add, the replay of an honestly served fallback index rebuilds one root for every block in which
      the log grew, and a root the contract recorded wherever a call left that total. Within the cap every total is one. */
  lemma {:induction false} FallbackRootsAreRecorded(h: PairHash<Fr>, calls: seq<BondCall>, c: Contract, ends: seq<nat>,
      address: Bytes, views: seq<BlockView>, n: nat, anchorSet: AnchorSet, manifest: seq<nat>)
    requires Watches(WordHash(h), calls, ends, views) && 0 < n <= |views|
    requires Played(WordHash(h), calls, |calls|) == Some(c) && InField(c.commitments)
    requires ServesStore(anchorSet, RunBlocks(address, views, n)) && WithinPage(anchorSet)
    requires WalkCalls(views, n) != [] || manifest == []
    ensures RebuiltRoots(h, anchorSet, manifest).Some?
    ensures var roots, totals := RebuiltRoots(h, anchorSet, manifest).value, LeafTotals(WalkCalls(views, n));
            && |roots| == |totals|
            && (forall i :: 0 <= i < |roots| && IsBoundary(calls, totals[i]) ==> Word(roots[i]) in c.roots)
            && (WithinCap(views, n) ==> AllBoundaries(calls, totals))
  {
    hide Played, Watches, IsBoundary, WithinCap, Root;
    var totals := LeafTotals(WalkCalls(views, n));
    FallbackReplays(h, calls, c, ends, address, views, n, anchorSet, manifest);
    BoundariesRecorded(h, calls, c, totals, RebuiltRoots(h, anchorSet, manifest).value);
    if WithinCap(views, n) { AgreesWithCallHandlers(WordHash(h), calls, ends, address, views, n); }
  }

  /** So the described root replay is unchanged, every rebuilt root being one the contract recorded, if and only if every
      total leaves a prefix that is the same tree as a recorded state, unless hashed pairs collide. */
  lemma {:induction false} FallbackRootsExactly(h: PairHash<Fr>, calls: seq<BondCall>, c: Contract, ends: seq<nat>,
      address: Bytes, views: seq<BlockView>, n: nat, anchorSet: AnchorSet, manifest: seq<nat>)
    requires Watches(WordHash(h), calls, ends, views) && 0 < n <= |views|
    requires Played(WordHash(h), calls, |calls|) == Some(c) && InField(c.commitments)
    requires ServesStore(anchorSet, RunBlocks(address, views, n)) && WithinPage(anchorSet)
    requires WalkCalls(views, n) != [] || manifest == []
    requires UncollidedAt(h, calls, c.commitments, LeafTotals(WalkCalls(views, n)))
    ensures RebuiltRoots(h, anchorSet, manifest).Some?
    ensures AllIn(RebuiltRoots(h, anchorSet, manifest).value, c.roots)
            <==> TreesRecordedAt(h, calls, c.commitments, LeafTotals(WalkCalls(views, n)))
  {
    hide Played, Watches, UncollidedAt, TreesRecordedAt, AllIn;
    FallbackReplays(h, calls, c, ends, address, views, n, anchorSet, manifest);
    TreesRecordedExactly(h, calls, c, LeafTotals(WalkCalls(views, n)), RebuiltRoots(h, anchorSet, manifest).value);
  }

  /** Where moreover no leaf is a node: if and only if every prefix is a recorded state up to mirrored leaves, and where no
      two commitments are equal, if and only if every total is one some call left. */
  lemma {:induction false} FallbackRootsAtBoundaries(h: PairHash<Fr>, calls: seq<BondCall>, c: Contract, ends: seq<nat>,
      address: Bytes, views: seq<BlockView>, n: nat, anchorSet: AnchorSet, manifest: seq<nat>)
    requires Watches(WordHash(h), calls, ends, views) && 0 < n <= |views|
    requires Played(WordHash(h), calls, |calls|) == Some(c) && InField(c.commitments)
    requires ServesStore(anchorSet, RunBlocks(address, views, n)) && WithinPage(anchorSet)
    requires WalkCalls(views, n) != [] || manifest == []
    requires UnmixedAt(h, calls, c.commitments, LeafTotals(WalkCalls(views, n)))
    ensures RebuiltRoots(h, anchorSet, manifest).Some?
    ensures AllIn(RebuiltRoots(h, anchorSet, manifest).value, c.roots)
            <==> LeavesRecordedAt(calls, c.commitments, LeafTotals(WalkCalls(views, n)))
    ensures NoDup(Numbers(c.commitments)) ==>
              (AllIn(RebuiltRoots(h, anchorSet, manifest).value, c.roots)
               <==> AllBoundaries(calls, LeafTotals(WalkCalls(views, n))))
  {
    hide Played, Watches, UncollidedAt, UnmixedAt, TreesRecordedAt, LeavesRecordedAt, AllIn, AllBoundaries, NoDup, Root;
    var totals := LeafTotals(WalkCalls(views, n));
    FallbackReplays(h, calls, c, ends, address, views, n, anchorSet, manifest);
    LeavesRecordedExactly(h, calls, c.commitments, totals);
    TreesRecordedExactly(h, calls, c, totals, RebuiltRoots(h, anchorSet, manifest).value);
  }

  /** A block over the cap can still end at a call boundary: a batch of exactly 512 and one more note in one block. */
  lemma {:induction false} CutAtACall(h: PairHash<Digest>, ctx: EthCall, batch: seq<Digest>, note: Digest, view: BlockView)
    requires |batch| == MAX_NEW_LEAVES_PER_BLOCK
    requires Watches(h, [MintBatch(ctx, batch), Mint(ctx, note)], [2], [view])
    ensures !WithinCap([view], 1) && LeafTotals(WalkCalls([view], 1)) == [MAX_NEW_LEAVES_PER_BLOCK]
    ensures AllBoundaries([MintBatch(ctx, batch), Mint(ctx, note)], LeafTotals(WalkCalls([view], 1)))
  {
    var calls := [MintBatch(ctx, batch), Mint(ctx, note)];
    assert |LeafLog(calls, 0)| == 0 && |LeafLog(calls, 1)| == |LeafLog(calls, 0)| + |Appends(calls[0])|;
    assert |LeafLog(calls, 2)| == |LeafLog(calls, 1)| + |Appends(calls[1])|;
    assert Shows(h, calls, [2][0], [view][0]);
    ShownCount(h, calls, 2, view);
    CutBlock(view);
    assert Added([view], 0) == |view.leaves|;
  }

  lemma {:induction false} Pow2Grows(a: nat, b: nat)
    requires a <= b
    ensures Pow2(a) <= Pow2(b)
  {
    if a < b { Pow2Grows(a, b - 1); }
  }

  lemma {:induction false} HeightBounds(n: nat, k: nat)
    requires n > 0
    ensures n <= Pow2(k) <==> Height(n) <= k
  {
    if Height(n) <= k { Pow2Grows(Height(n), k); } else { Pow2Grows(k, Height(n) - 1); }
  }

  lemma {:induction false} CutIsLower(n: nat)
    requires n > MAX_NEW_LEAVES_PER_BLOCK
    ensures Height(MAX_NEW_LEAVES_PER_BLOCK) < Height(n)
  {
    assert Pow2(9) == MAX_NEW_LEAVES_PER_BLOCK;
    HeightBounds(MAX_NEW_LEAVES_PER_BLOCK, 9);
    HeightBounds(n, 9);
  }

  lemma NotTheWholeRoot<F(!new)>(h: PairHash<F>, leaves: seq<F>)
    requires |leaves| > MAX_NEW_LEAVES_PER_BLOCK
    requires Unmixed(h, leaves[..MAX_NEW_LEAVES_PER_BLOCK], leaves)
    ensures Root(h, leaves[..MAX_NEW_LEAVES_PER_BLOCK]) != Root(h, leaves)
  {
    hide Root, Alike, SameTree, Height, NoNode, NoCollisions;
    var cut := leaves[..MAX_NEW_LEAVES_PER_BLOCK];
    CutIsLower(|leaves|);
    SameRootExactly(h, cut, leaves);
    UnmixedSameTree(h, cut, leaves);
    AlikeHeights(cut, leaves);
  }

  /** Over the cap it need not: a first batch of more than 512 commitments leaves a total that no call left, and the root
      replayed there is none the contract recorded, unless hashed pairs collide or a leaf is a node. */
  lemma {:induction false} OversizedBatchIsCut(h: PairHash<Fr>, ctx: EthCall, batch: seq<Digest>, view: BlockView)
    requires |batch| > MAX_NEW_LEAVES_PER_BLOCK && InField(batch)
    requires Watches(WordHash(h), [MintBatch(ctx, batch)], [1], [view])
    requires Unmixed(h, Map(WordNumber(), batch)[..MAX_NEW_LEAVES_PER_BLOCK], Map(WordNumber(), batch))
    ensures LeafTotals(WalkCalls([view], 1)) == [MAX_NEW_LEAVES_PER_BLOCK]
    ensures !IsBoundary([MintBatch(ctx, batch)], MAX_NEW_LEAVES_PER_BLOCK)
    ensures Word(PrefixRoot(h, Map(WordNumber(), view.leaves))(MAX_NEW_LEAVES_PER_BLOCK))
            !in Played(WordHash(h), [MintBatch(ctx, batch)], 1).value.roots
  {
    hide Root, Standing, Played, WalkCalls, LeafTotals, IsBoundary, Unmixed, WordHash, Height;
    var calls, leaves := [MintBatch(ctx, batch)], Map(WordNumber(), batch);
    assert Shows(WordHash(h), calls, [1][0], [view][0]);
    OneBatch(WordHash(h), ctx, batch);
    CutBlock(view);
    CutTotal(ctx, batch);
    NotTheWholeRoot(h, leaves);
    RootOfWords(h, batch);
    WordInField(Root(h, leaves[..MAX_NEW_LEAVES_PER_BLOCK]));
    WordInField(Root(h, leaves));
  }

  lemma OneBatch(h: PairHash<Digest>, ctx: EthCall, batch: seq<Digest>)
    requires batch != []
    ensures var played := Played(h, [MintBatch(ctx, batch)], 1);
            played.Some? && played.value.commitments == batch && played.value.roots == [Root(h, batch)]
  {
    assert Played(h, [MintBatch(ctx, batch)], 0) == Some(DEPLOYED);
    assert DEPLOYED.commitments + batch == batch;
  }

  lemma CutBlock(view: BlockView)
    requires |view.leaves| > MAX_NEW_LEAVES_PER_BLOCK
    ensures LeafTotals(WalkCalls([view], 1)) == [MAX_NEW_LEAVES_PER_BLOCK]
  {
    assert WalkCalls([view], 0) == [] && Reached([view], 0) == 0;
    assert WalkCalls([view], 1) == [SyntheticCall(view, 0, MAX_NEW_LEAVES_PER_BLOCK)];
  }

  lemma CutTotal(ctx: EthCall, batch: seq<Digest>)
    requires |batch| > MAX_NEW_LEAVES_PER_BLOCK
    ensures !IsBoundary([MintBatch(ctx, batch)], MAX_NEW_LEAVES_PER_BLOCK)
  {
    var calls := [MintBatch(ctx, batch)];
    assert |LeafLog(calls, 1)| == |LeafLog(calls, 0)| + |Appends(calls[0])|;
  }
}
