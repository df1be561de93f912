/** The contract as docs/private-bond-audit-replay.md describes it, and the index that mirrors it. */
module BondContract {
  import opened Basics
  import opened ByteCodec
  import opened Text
  import opened BondMapping
  import opened BondLog
  import opened Merkle

  /** Anchor state: an append-only array, the spent notes, and every root recorded so far, in order. */
  datatype Contract = Contract(commitments: seq<Digest>, spent: set<Digest>, roots: seq<Digest>)

  const DEPLOYED: Contract := Contract([], {}, [])

  // ----- the contract ---------------------------------------------------------------

  /** The swap reads four public inputs of each leg; a shorter array reverts. */
  predicate Readable(call: BondCall) {
    call.AtomicSwap? ==> |call.inputsA| >= LEG_INPUTS && |call.inputsB| >= LEG_INPUTS
  }

  function Pushed(call: BondCall): seq<Digest>
    requires Readable(call)
  {
    match call
    case Mint(_, commitment) => [commitment]
    case MintBatch(_, commitments) => commitments
    case Transfer(_, _, _, _, out) => out
    case Burn(_, _, _, _, out) => out
    case AtomicSwap(_, _, a, b) => [a[2], b[2]]
  }

  function Nullified(call: BondCall): seq<Digest>
    requires Readable(call)
  {
    match call
    case Mint(_, _) => []
    case MintBatch(_, _) => []
    case Transfer(_, _, _, spent, _) => spent
    case Burn(_, _, _, spent, _) => spent
    case AtomicSwap(_, _, a, b) => [a[1], b[1]]
  }

  function Cited(call: BondCall): seq<Digest>
    requires Readable(call)
  {
    match call
    case Mint(_, _) => []
    case MintBatch(_, _) => []
    case Transfer(_, _, root, _, _) => [root]
    case Burn(_, _, root, _, _) => [root]
    case AtomicSwap(_, _, a, b) => [a[0], b[0]]
  }

  /** Known roots, fresh nullifiers and at least one commitment to hash: anything else reverts. */
  ghost predicate Succeeds(c: Contract, call: BondCall) {
    && Readable(call)
    && (forall r :: r in Cited(call) ==> r in c.roots)
    && NoDup(Nullified(call)) && (forall v :: v in Nullified(call) ==> v !in c.spent)
    && c.commitments + Pushed(call) != []
  }

  /** A successful call pushes its commitments, marks its nullifiers and records the root over the whole array. */
  ghost function Execute(h: PairHash<Digest>, c: Contract, call: BondCall): Contract
    requires Succeeds(c, call)
  {
    var all := c.commitments + Pushed(call);
    Contract(all, c.spent + Elements(Nullified(call)), c.roots + [Root(h, all)])
  }

  /** The contract after the first `n` calls, if none of them reverted. */
  ghost function Played(h: PairHash<Digest>, calls: seq<BondCall>, n: nat): Option<Contract>
    requires n <= |calls|
  {
    if n == 0 then Some(DEPLOYED)
    else
      var before := Played(h, calls, n - 1);
      if before.Some? && Succeeds(before.value, calls[n - 1]) then Some(Execute(h, before.value, calls[n - 1])) else None
  }

  // ----- call by call ------------------------------------------------------------------

  lemma ReadAsCalled(call: BondCall)
    requires Readable(call)
    ensures Appends(call) == Pushed(call) && Spends(call) == Nullified(call)
    ensures |Claims(call)| == |Cited(call)| && forall i :: 0 <= i < |Claims(call)| ==> Claims(call)[i].root == Cited(call)[i]
  {}

  function LeafValue(): Commitment -> Digest { (c: Commitment) => c.value }

  lemma {:induction false} CallLeafValues(call: BondCall, k: nat, first: nat)
    ensures Map(LeafValue(), CallLeaves(call, k, first)) == Appends(call)
  {
    forall i | 0 <= i < |Appends(call)| ensures LeafValue()(CallLeaves(call, k, first)[i]) == Appends(call)[i] {
      CallLeaf(call, k, first, i);
    }
  }

  /** The indexed leaves are the contract's array, and each recorded root is the root over the leaves logged by then. */
  lemma {:induction false} LeavesAreCommitments(h: PairHash<Digest>, calls: seq<BondCall>, n: nat)
    requires n <= |calls| && Played(h, calls, n).Some?
    ensures Map(LeafValue(), LeafLog(calls, n)) == Played(h, calls, n).value.commitments
    ensures |Played(h, calls, n).value.roots| == n
  {
    if n > 0 {
      LeavesAreCommitments(h, calls, n - 1);
      var below, k := LeafLog(calls, n - 1), n - 1;
      ReadAsCalled(calls[k]);
      CallLeafValues(calls[k], k, |below|);
      MapConcat(LeafValue(), below, CallLeaves(calls[k], k, |below|));
    }
  }

  lemma {:induction false} PlayedBefore(h: PairHash<Digest>, calls: seq<BondCall>, k: nat, n: nat)
    requires k <= n <= |calls| && Played(h, calls, n).Some?
    ensures Played(h, calls, k).Some?
    ensures Played(h, calls, k).value.roots <= Played(h, calls, n).value.roots
    ensures Played(h, calls, k).value.commitments <= Played(h, calls, n).value.commitments
    decreases n
  {
    if k < n { PlayedBefore(h, calls, k, n - 1); }
  }

  /** Root `i` is the root over the leaves there were when call `i` returned. */
  lemma {:induction false} RootAfterCall(h: PairHash<Digest>, calls: seq<BondCall>, n: nat, i: nat)
    requires i < n <= |calls| && Played(h, calls, n).Some?
    ensures var c, count := Played(h, calls, n).value, |LeafLog(calls, i + 1)|;
            && |c.roots| == n && 0 < count <= |c.commitments|
            && c.roots[i] == Root(h, c.commitments[..count])
  {
    hide Root, LeafLog, Pushed, Nullified, Cited, Elements;
    PlayedBefore(h, calls, i + 1, n);
    LeavesAreCommitments(h, calls, n);
    LeavesAreCommitments(h, calls, i + 1);
    var early, now := Played(h, calls, i + 1).value, Played(h, calls, n).value;
    assert early.roots[i] == Root(h, early.commitments);
    assert now.commitments[..|early.commitments|] == early.commitments;
    assert now.roots[i] == early.roots[i];
  }

  // ----- nullifiers ----------------------------------------------------------------------

  lemma {:induction false} SpentAreNullified(h: PairHash<Digest>, calls: seq<BondCall>, n: nat)
    requires n <= |calls| && Played(h, calls, n).Some?
    ensures NoDup(SpentLog(calls, n)) && Elements(SpentLog(calls, n)) == Played(h, calls, n).value.spent
  {
    if n > 0 {
      SpentAreNullified(h, calls, n - 1);
      ReadAsCalled(calls[n - 1]);
      NoDupJoin(SpentLog(calls, n - 1), Spends(calls[n - 1]));
      assert Elements(SpentLog(calls, n)) == Elements(SpentLog(calls, n - 1)) + Elements(Spends(calls[n - 1]));
    }
  }

  /** The nullifier table holds exactly the values spent, under their own hexadecimal. */
  ghost predicate IsSpentTable(m: map<string, Nullifier>, spent: seq<Digest>) {
    && (forall v {:trigger v in spent} :: v in spent ==> ToHex(v) in m && m[ToHex(v)].value == v)
    && (forall k :: k in m ==> k == ToHex(m[k].value) && m[k].value in spent)
  }

  lemma {:induction false} SpentTableSaves(m: map<string, Nullifier>, was: seq<Digest>, ctx: EthCall, source: Source,
                                           callId: string, values: seq<Digest>, n: nat)
    requires IsSpentTable(m, was) && n <= |values|
    ensures IsSpentTable(SavedTo(m, SpentEntries(ctx, source, callId, values), n), was + values[..n])
  {
    if n == 0 {
      assert was + values[..0] == was;
    } else {
      SpentTableSaves(m, was, ctx, source, callId, values, n - 1);
      var v, entries := values[n - 1], SpentEntries(ctx, source, callId, values);
      assert was + values[..n] == was + values[..n - 1] + [v];
      assert entries[n - 1] == (ToHex(v), NullifierOf(ctx, source, callId, v));
      SpentTableGrows(SavedTo(m, entries, n - 1), was + values[..n - 1], NullifierOf(ctx, source, callId, v));
    }
  }

  lemma SpentTableGrows(m: map<string, Nullifier>, spent: seq<Digest>, x: Nullifier)
    requires IsSpentTable(m, spent)
    ensures IsSpentTable(m[ToHex(x.value) := x], spent + [x.value])
  {
    var m' := m[ToHex(x.value) := x];
    forall v | v in spent + [x.value] ensures ToHex(v) in m' && m'[ToHex(v)].value == v {
      if ToHex(v) == ToHex(x.value) { ToHexInjective(v, x.value); }
    }
  }

  /** After `n` calls the nullifier table holds what was spent. */
  ghost predicate SpentAfter(env: Env, calls: seq<BondCall>, n: nat)
    requires n <= |calls|
  {
    IsSpentTable(StoreAfter(env, calls, n).nullifiers, SpentLog(calls, n))
  }

  lemma {:induction false} NullifiersAreSpent(env: Env, calls: seq<BondCall>, n: nat)
    requires n <= |calls|
    ensures SpentAfter(env, calls, n)
  {
    hide SpentAfter;
    if n == 0 {
      NothingSpent(env, calls);
    } else {
      NullifiersAreSpent(env, calls, n - 1);
      SpentNext(env, calls, n - 1);
    }
  }

  lemma NothingSpent(env: Env, calls: seq<BondCall>)
    ensures SpentAfter(env, calls, 0)
  {}

  lemma {:induction false} SpentNext(env: Env, calls: seq<BondCall>, k: nat)
    requires k < |calls| && SpentAfter(env, calls, k)
    ensures SpentAfter(env, calls, k + 1)
  {
    var s := StoreAfter(env, calls, k);
    SpentFiled(env, s, calls[k], SpentLog(calls, k), Handled(env, s, calls[k]), SpentLog(calls, k) + Spends(calls[k]));
  }

  lemma {:induction false} SpentFiled(env: Env, s: BondStore, call: BondCall, was: seq<Digest>, s': BondStore, now: seq<Digest>)
    requires IsSpentTable(s.nullifiers, was) && s' == Handled(env, s, call) && now == was + Spends(call)
    ensures IsSpentTable(s'.nullifiers, now)
  {
    var bond := Loaded(env, s, call.ctx);
    HandledFields(env, s, call, bond);
    SpentTableSaves(s.nullifiers, was, call.ctx, Kind(call), Padded(bond.callCount), Spends(call), |Spends(call)|);
    assert Spends(call)[..|Spends(call)|] == Spends(call);
  }

  /** The nullifier total is the table's size if and only if no history entry spends a value twice. */
  lemma {:induction false} NullifierTotal(env: Env, calls: seq<BondCall>)
    requires calls != []
    ensures var s := StoreAfter(env, calls, |calls|);
            s.bond.Some? && (s.bond.value.nullifierCount == |s.nullifiers| <==> NoDup(SpentLog(calls, |calls|)))
  {
    IndexIsLogged(env, calls, |calls|);
    NullifiersAreSpent(env, calls, |calls|);
    SpentTableSize(StoreAfter(env, calls, |calls|).nullifiers, SpentLog(calls, |calls|));
    DistinctCount(SpentLog(calls, |calls|));
  }

  lemma {:induction false} SpentTableSize(m: map<string, Nullifier>, spent: seq<Digest>)
    requires IsSpentTable(m, spent)
    ensures |m| == |Elements(spent)|
    decreases |m|
  {
    hide IsSpentTable, Without, Elements;
    if m == map[] {
      EmptyTable(spent);
    } else {
      var k :| k in m;
      SpentRemoved(m, spent, k);
      SpentTableSize(m - {k}, Without(spent, m[k].value));
    }
  }

  lemma EmptyTable(spent: seq<Digest>)
    requires IsSpentTable(map[], spent)
    ensures |Elements(spent)| == 0
  {
    forall v ensures v !in spent {}
    NoMembers(spent);
  }

  lemma SpentRemoved(m: map<string, Nullifier>, spent: seq<Digest>, k: string)
    requires IsSpentTable(m, spent) && k in m
    ensures IsSpentTable(m - {k}, Without(spent, m[k].value))
    ensures |Elements(spent)| == |Elements(Without(spent, m[k].value))| + 1
  {
    hide ToHex, Without;
    var v := m[k].value;
    WithoutMember(spent, v);
    forall u | u in Without(spent, v) ensures ToHex(u) in m - {k} {
      if ToHex(u) == k { ToHexInjective(u, v); }
    }
    assert Elements(spent) == Elements(Without(spent, v)) + {v};
  }

  ghost function Without<T>(xs: seq<T>, x: T): seq<T> {
    if xs == [] then [] else Without(xs[..|xs| - 1], x) + (if xs[|xs| - 1] == x then [] else [xs[|xs| - 1]])
  }

  lemma {:induction false} WithoutMember<T>(xs: seq<T>, x: T)
    ensures forall y :: y in Without(xs, x) <==> y in xs && y != x
  {
    if xs != [] {
      assert xs == xs[..|xs| - 1] + [xs[|xs| - 1]];
      WithoutMember(xs[..|xs| - 1], x);
    }
  }

  // ----- cited roots --------------------------------------------------------------------------

  ghost predicate AllKnown(m: map<string, RootClaimed>, roots: seq<Digest>) {
    forall k :: k in m ==> m[k].root in roots
  }

  lemma {:induction false} ClaimsSaved(m: map<string, RootClaimed>, ctx: EthCall, source: Source, callId: string,
                                       claims: seq<Claim>, roots: seq<Digest>, n: nat)
    requires AllKnown(m, roots) && n <= |claims|
    requires forall i {:trigger claims[i]} :: 0 <= i < |claims| ==> claims[i].root in roots
    ensures AllKnown(SavedTo(m, ClaimEntries(ctx, source, callId, claims), n), roots)
  {
    if n > 0 {
      ClaimsSaved(m, ctx, source, callId, claims, roots, n - 1);
      assert claims[n - 1].root in roots;
      assert ClaimEntries(ctx, source, callId, claims)[n - 1].1.root == claims[n - 1].root;
    }
  }

  lemma {:induction false} ClaimsFiled(env: Env, s: BondStore, call: BondCall, roots: seq<Digest>)
    requires AllKnown(s.roots, roots) && Readable(call) && forall r :: r in Cited(call) ==> r in roots
    ensures AllKnown(Handled(env, s, call).roots, roots)
  {
    var bond := Loaded(env, s, call.ctx);
    HandledFields(env, s, call, bond);
    ReadAsCalled(call);
    forall i | 0 <= i < |Claims(call)| ensures Claims(call)[i].root in roots { assert Cited(call)[i] in Cited(call); }
    ClaimsSaved(s.roots, call.ctx, Kind(call), Padded(bond.callCount), Claims(call), roots, |Claims(call)|);
  }

  lemma {:induction false} ClaimsAreKnown(env: Env, h: PairHash<Digest>, calls: seq<BondCall>, n: nat)
    requires n <= |calls| && Played(h, calls, n).Some?
    ensures AllKnown(StoreAfter(env, calls, n).roots, Played(h, calls, n).value.roots)
  {
    if n > 0 {
      ClaimsAreKnown(env, h, calls, n - 1);
      ClaimsFiled(env, StoreAfter(env, calls, n - 1), calls[n - 1], Played(h, calls, n - 1).value.roots);
      KnownStays(StoreAfter(env, calls, n).roots, Played(h, calls, n - 1).value.roots, Played(h, calls, n).value.roots);
    }
  }

  lemma KnownStays(m: map<string, RootClaimed>, roots: seq<Digest>, more: seq<Digest>)
    requires AllKnown(m, roots) && roots <= more
    ensures AllKnown(m, more)
  {
    forall r | r in roots ensures r in more { var i :| 0 <= i < |roots| && roots[i] == r; assert more[i] == r; }
  }

  function ClaimedRoot(): ((string, RootClaimed)) -> Digest { (e: (string, RootClaimed)) => e.1.root }

  /** The roots the calls cite, in order, as the contract reads them. */
  function Citations(calls: seq<BondCall>, n: nat): seq<Digest>
    requires n <= |calls|
  {
    if n == 0 then [] else Citations(calls, n - 1) + (if Readable(calls[n - 1]) then Cited(calls[n - 1]) else [])
  }

  lemma {:induction false} ClaimsAreCitations(h: PairHash<Digest>, calls: seq<BondCall>, n: nat)
    requires n <= |calls| && Played(h, calls, n).Some?
    ensures Map(ClaimedRoot(), ClaimLog(calls, n)) == Citations(calls, n)
  {
    if n > 0 {
      ClaimsAreCitations(h, calls, n - 1);
      CallClaimsAreCited(calls[n - 1], n - 1);
      MapConcat(ClaimedRoot(), ClaimLog(calls, n - 1), CallClaims(calls[n - 1], n - 1));
    }
  }

  lemma CallClaimsAreCited(call: BondCall, k: nat)
    requires Readable(call)
    ensures Map(ClaimedRoot(), CallClaims(call, k)) == Cited(call)
  {
    ReadAsCalled(call);
    forall i | 0 <= i < |Claims(call)| ensures ClaimedRoot()(CallClaims(call, k)[i]) == Cited(call)[i] {}
  }

  // ----- the index mirrors the contract ---------------------------------------------------------

  /** The leaf table is the array, position by position. */
  ghost predicate HoldsArray(m: map<string, Commitment>, values: seq<Digest>) {
    && (forall i: nat {:trigger values[i]} :: i < |values| ==>
          Padded(i) in m && m[Padded(i)].leafIndex == i && m[Padded(i)].value == values[i])
    && (forall k :: k in m ==> IsPosition(k, |values|))
  }

  /** The nullifier table is the set of spent notes. */
  ghost predicate HoldsSpent(m: map<string, Nullifier>, spent: set<Digest>) {
    && |m| == |spent|
    && (forall v: Digest {:trigger v in spent} :: v in spent ==> ToHex(v) in m)
    && (forall k :: k in m ==> m[k].value in spent && k == ToHex(m[k].value))
  }

  ghost predicate Mirrors(s: BondStore, c: Contract) {
    && s.bond.Some?
    && s.bond.value.leafCount == |c.commitments|
    && s.bond.value.callCount == |c.roots|
    && s.bond.value.nullifierCount == |c.spent|
    && HoldsArray(s.commitments, c.commitments)
    && HoldsSpent(s.nullifiers, c.spent)
    && AllKnown(s.roots, c.roots)
  }

  /** After any history none of whose calls reverted, the store is the contract's state: the array position by position,
      the spent notes, one lifecycle entry a recorded root, and exactly the roots the calls cited, all of them known. */
  lemma {:induction false} IndexMirrorsContract(env: Env, h: PairHash<Digest>, calls: seq<BondCall>)
    requires calls != [] && Played(h, calls, |calls|).Some?
    ensures Mirrors(StoreAfter(env, calls, |calls|), Played(h, calls, |calls|).value)
    ensures IsFiled(StoreAfter(env, calls, |calls|).roots, ClaimLog(calls, |calls|))
    ensures Map(ClaimedRoot(), ClaimLog(calls, |calls|)) == Citations(calls, |calls|)
  {
    hide Played, StoreAfter, Mirrors, Logged, IsFiled, ClaimLog, IsSpentTable, AllKnown;
    var n := |calls|;
    ClaimsAreLogged(env, calls, n);
    ClaimsAreCitations(h, calls, n);
    var s, c := StoreAfter(env, calls, n), Played(h, calls, n).value;
    IndexIsLogged(env, calls, n);
    LeavesAreCommitments(h, calls, n);
    NullifiersAreSpent(env, calls, n);
    SpentAreNullified(h, calls, n);
    ClaimsAreKnown(env, h, calls, n);
    LogsMirror(env, calls, s, c);
  }

  lemma {:induction false} LogsMirror(env: Env, calls: seq<BondCall>, s: BondStore, c: Contract)
    requires calls != [] && Logged(env, calls, |calls|, s) && |c.roots| == |calls|
    requires Map(LeafValue(), LeafLog(calls, |calls|)) == c.commitments
    requires IsSpentTable(s.nullifiers, SpentLog(calls, |calls|))
    requires NoDup(SpentLog(calls, |calls|)) && Elements(SpentLog(calls, |calls|)) == c.spent
    requires AllKnown(s.roots, c.roots)
    ensures Mirrors(s, c)
  {
    MirroredLeaves(calls, s.commitments, c.commitments);
    MirroredSpent(s.nullifiers, SpentLog(calls, |calls|), c.spent);
  }

  lemma {:induction false} MirroredLeaves(calls: seq<BondCall>, m: map<string, Commitment>, values: seq<Digest>)
    requires IsTable(m, LeafLog(calls, |calls|)) && Map(LeafValue(), LeafLog(calls, |calls|)) == values
    ensures HoldsArray(m, values) && |LeafLog(calls, |calls|)| == |values|
  {
    var log := LeafLog(calls, |calls|);
    forall i: nat | i < |values| ensures Padded(i) in m && m[Padded(i)].leafIndex == i && m[Padded(i)].value == values[i] {
      LeafPositions(calls, |calls|, i);
      assert m[Padded(i)] == log[i] && LeafValue()(log[i]) == values[i];
    }
  }

  lemma {:induction false} MirroredSpent(m: map<string, Nullifier>, log: seq<Digest>, spent: set<Digest>)
    requires IsSpentTable(m, log) && NoDup(log) && Elements(log) == spent
    ensures HoldsSpent(m, spent) && |log| == |spent|
  {
    SpentTableSize(m, log);
    DistinctCount(log);
    forall v: Digest | v in spent ensures ToHex(v) in m { assert v in log; }
    forall k | k in m ensures m[k].value in spent { assert m[k].value in log; }
  }
}
