/** Every field of what the call handlers file, read off the calldata. */
module BondEntities {
  import opened Basics
  import opened ByteCodec
  import opened Text
  import opened BondMapping
  import opened BondLog

  // ----- what the calldata says --------------------------------------------------------------

  /** The entity names the entry point called. */
  ghost predicate NamedFor(source: Source, call: BondCall) {
    && (source == MINT <==> call.Mint?)
    && (source == MINT_BATCH <==> call.MintBatch?)
    && (source == TRANSFER <==> call.Transfer?)
    && (source == BURN <==> call.Burn?)
    && (source == ATOMIC_SWAP <==> call.AtomicSwap?)
  }

  /** Mints take no proof, and are recorded with an empty one. */
  ghost predicate ProofRecorded(env: Env, call: BondCall, e: LifecycleCall) {
    match call
    case Mint(_, _) => e.proofLength == 0 && e.proofHash == env.keccak([])
    case MintBatch(_, _) => e.proofLength == 0 && e.proofHash == env.keccak([])
    case Transfer(_, proof, _, _, _) => e.proofLength == |proof| && e.proofHash == env.keccak(proof)
    case Burn(_, proof, _, _, _) => e.proofLength == |proof| && e.proofHash == env.keccak(proof)
    case AtomicSwap(_, proofA, _, _) => e.proofLength == |proofA| && e.proofHash == env.keccak(proofA)
  }

  /** Output number `i` of the call; a swap leg of fewer than four inputs has none. */
  ghost predicate Outputs(call: BondCall, i: nat, v: Digest) {
    match call
    case Mint(_, commitment) => i == 0 && v == commitment
    case MintBatch(_, commitments) => i < |commitments| && v == commitments[i]
    case Transfer(_, _, _, _, out) => i < |out| && v == out[i]
    case Burn(_, _, _, _, out) => i < |out| && v == out[i]
    case AtomicSwap(_, _, a, b) =>
      || (|a| >= 4 && i == 0 && v == a[2])
      || (|b| >= 4 && i == (if |a| >= 4 then 1 else 0) && v == b[2])
  }

  function OutputCount(call: BondCall): nat {
    match call
    case Mint(_, _) => 1
    case MintBatch(_, commitments) => |commitments|
    case Transfer(_, _, _, _, out) => |out|
    case Burn(_, _, _, _, out) => |out|
    case AtomicSwap(_, _, a, b) => (if |a| >= 4 then 1 else 0) + (if |b| >= 4 then 1 else 0)
  }

  function OutputsThrough(calls: seq<BondCall>, n: nat): nat
    requires n <= |calls|
  {
    if n == 0 then 0 else OutputsThrough(calls, n - 1) + OutputCount(calls[n - 1])
  }

  /** The call spends the note `v`. */
  ghost predicate SpendsNote(call: BondCall, v: Digest) {
    match call
    case Mint(_, _) => false
    case MintBatch(_, _) => false
    case Transfer(_, _, _, spent, _) => v in spent
    case Burn(_, _, _, spent, _) => v in spent
    case AtomicSwap(_, _, a, b) => (|a| >= 4 && v == a[1]) || (|b| >= 4 && v == b[1])
  }

  function NoteCount(call: BondCall): nat {
    match call
    case Mint(_, _) => 0
    case MintBatch(_, _) => 0
    case Transfer(_, _, _, spent, _) => |spent|
    case Burn(_, _, _, spent, _) => |spent|
    case AtomicSwap(_, _, a, b) => (if |a| >= 4 then 1 else 0) + (if |b| >= 4 then 1 else 0)
  }

  function NotesThrough(calls: seq<BondCall>, n: nat): nat
    requires n <= |calls|
  {
    if n == 0 then 0 else NotesThrough(calls, n - 1) + NoteCount(calls[n - 1])
  }

  /** The call cites the root, filed under this suffix. */
  ghost predicate Cites(call: BondCall, suffix: string, root: Digest) {
    match call
    case Mint(_, _) => false
    case MintBatch(_, _) => false
    case Transfer(_, _, cited, _, _) => suffix == "root" && root == cited
    case Burn(_, _, cited, _, _) => suffix == "root" && root == cited
    case AtomicSwap(_, _, a, b) =>
      (|a| >= 4 && suffix == "rootA" && root == a[0]) || (|b| >= 4 && suffix == "rootB" && root == b[0])
  }

  // ----- the entities --------------------------------------------------------------------------

  ghost predicate CallEntity(env: Env, call: BondCall, k: nat, leafCountAfter: nat, e: LifecycleCall) {
    && e.sequence == k && e.leafCountAfter == leafCountAfter
    && NamedFor(e.source, call) && ProofRecorded(env, call, e)
    && e.txHash == call.ctx.txHash && e.blockNumber == call.ctx.blockNumber
    && e.timestamp == call.ctx.timestamp && e.caller == call.ctx.from
  }

  ghost predicate LeafEntity(call: BondCall, k: nat, leaf: nat, v: Digest, e: Commitment) {
    && e.leafIndex == leaf && e.value == v && e.callId == Padded(k) && NamedFor(e.source, call)
    && e.txHash == call.ctx.txHash && e.blockNumber == call.ctx.blockNumber
    && e.timestamp == call.ctx.timestamp && e.caller == call.ctx.from
  }

  ghost predicate NoteEntity(call: BondCall, k: nat, v: Digest, e: Nullifier) {
    && e.value == v && e.callId == Padded(k) && NamedFor(e.source, call)
    && e.txHash == call.ctx.txHash && e.blockNumber == call.ctx.blockNumber
    && e.timestamp == call.ctx.timestamp && e.caller == call.ctx.from
  }

  ghost predicate RootEntity(call: BondCall, k: nat, root: Digest, e: RootClaimed) {
    && e.root == root && e.callId == Padded(k) && NamedFor(e.source, call)
    && e.txHash == call.ctx.txHash && e.blockNumber == call.ctx.blockNumber && e.timestamp == call.ctx.timestamp
  }

  // ----- the calldata against what the handlers read -------------------------------------------

  lemma {:induction false} OutputsAreAppended(call: BondCall, i: nat, v: Digest)
    ensures |Appends(call)| == OutputCount(call)
    ensures Outputs(call, i, v) <==> i < |Appends(call)| && Appends(call)[i] == v
  {}

  lemma {:induction false} NotesAreSpent(call: BondCall, v: Digest)
    ensures |Spends(call)| == NoteCount(call)
    ensures SpendsNote(call, v) <==> v in Spends(call)
  {}

  lemma {:induction false} CitationsAreClaimed(call: BondCall, suffix: string, root: Digest)
    ensures Cites(call, suffix, root) <==> exists i :: 0 <= i < |Claims(call)| && Claims(call)[i] == Claim(suffix, root)
  {
    var claims := Claims(call);
    if Cites(call, suffix, root) {
      assert claims[0] == Claim(suffix, root) || claims[|claims| - 1] == Claim(suffix, root);
    }
    assert "root" + "A" == "rootA" && "root" + "B" == "rootB";
  }

  lemma {:induction false} LogLengths(calls: seq<BondCall>, n: nat)
    requires n <= |calls|
    ensures |LeafLog(calls, n)| == OutputsThrough(calls, n) && |SpentLog(calls, n)| == NotesThrough(calls, n)
  {
    if n > 0 {
      LogLengths(calls, n - 1);
      LogStep(calls, n - 1);
      OutputsAreAppended(calls[n - 1], 0, ZERO32);
      NotesAreSpent(calls[n - 1], ZERO32);
    }
  }

  lemma NamesTheCall(call: BondCall)
    ensures NamedFor(Kind(call), call)
  {}

  lemma ProofIsRecorded(env: Env, call: BondCall, k: nat, after: nat)
    ensures CallEntity(env, call, k, after, CallOf(env, call.ctx, Kind(call), Proof(call), k, after))
  {}

  // ----- the lifecycle log -----------------------------------------------------------------------

  /** After every history the entry of call `k` says what the call was: its number, its entry point, its proof, the leaves
      there were once it returned, and the transaction around it. */
  lemma {:induction false} CallEntities(env: Env, calls: seq<BondCall>, n: nat, k: nat)
    requires k < n <= |calls|
    ensures var m := StoreAfter(env, calls, n).calls;
            Padded(k) in m && CallEntity(env, calls[k], k, OutputsThrough(calls, k + 1), m[Padded(k)])
  {
    hide StoreAfter, LeafLog, CallEntity, CallOf, Kind, Proof;
    IndexIsLogged(env, calls, n);
    CallEntry(env, calls, n, k);
    LogLengths(calls, k + 1);
    ProofIsRecorded(env, calls[k], k, OutputsThrough(calls, k + 1));
    assert CallLog(env, calls, n)[k] == StoreAfter(env, calls, n).calls[Padded(k)];
  }

  /** The bond's own fields: the address of the first call, what `bondId()` answered or zero, and true totals. */
  lemma {:induction false} BondEntity(env: Env, calls: seq<BondCall>, n: nat)
    requires 0 < n <= |calls|
    ensures var bond := StoreAfter(env, calls, n).bond;
            && bond.Some? && bond.value.address == calls[0].ctx.to
            && (env.bondId.Some? ==> bond.value.bondId == env.bondId.value)
            && (env.bondId.None? ==> |bond.value.bondId| == 32 && forall i :: 0 <= i < 32 ==> bond.value.bondId[i] == 0)
            && bond.value.callCount == n && bond.value.leafCount == OutputsThrough(calls, n)
            && bond.value.nullifierCount == NotesThrough(calls, n)
  {
    hide StoreAfter, LeafLog, SpentLog, IsTable;
    IndexIsLogged(env, calls, n);
    LogLengths(calls, n);
  }

  // ----- the leaves --------------------------------------------------------------------------------

  lemma {:induction false} LeafLogHolds(calls: seq<BondCall>, n: nat, k: nat, i: nat)
    requires k < n <= |calls| && i < |Appends(calls[k])|
    ensures var leaf := |LeafLog(calls, k)| + i;
            && leaf < |LeafLog(calls, n)|
            && LeafLog(calls, n)[leaf] == CommitmentOf(calls[k].ctx, Kind(calls[k]), Padded(k), leaf, Appends(calls[k])[i])
  {
    hide LeafLog, CallLeaves, Appends, Kind, CommitmentOf, Padded;
    var below := LeafLog(calls, k);
    LeafLogNext(calls, k, k + 1);
    LogGrows(calls, k + 1, n);
    CallLeaf(calls[k], k, |below|, i);
    assert LeafLog(calls, k + 1)[|below| + i] == CallLeaves(calls[k], k, |below|)[i];
  }

  lemma LeafIsEntity(call: BondCall, k: nat, leaf: nat, v: Digest)
    ensures LeafEntity(call, k, leaf, v, CommitmentOf(call.ctx, Kind(call), Padded(k), leaf, v))
  {
    hide Padded;
  }

  /** Output `i` of call `k` is the leaf after all earlier outputs, and its entity says so. */
  lemma {:induction false} LeafEntities(env: Env, calls: seq<BondCall>, n: nat, k: nat, i: nat, v: Digest)
    requires k < n <= |calls| && Outputs(calls[k], i, v)
    ensures var m, leaf := StoreAfter(env, calls, n).commitments, OutputsThrough(calls, k) + i;
            Padded(leaf) in m && LeafEntity(calls[k], k, leaf, v, m[Padded(leaf)])
  {
    hide StoreAfter, LeafLog, CallLog, Outputs, Appends, Kind, CommitmentOf, LeafEntity, Padded, OutputsThrough;
    IndexIsLogged(env, calls, n);
    LogLengths(calls, k);
    OutputsAreAppended(calls[k], i, v);
    LeafLogHolds(calls, n, k, i);
    var leaf := OutputsThrough(calls, k) + i;
    LeafIsEntity(calls[k], k, leaf, v);
    assert LeafLog(calls, n)[leaf] == StoreAfter(env, calls, n).commitments[Padded(leaf)];
  }

  lemma {:induction false} LeafFromCall(calls: seq<BondCall>, n: nat, leaf: nat) returns (k: nat, i: nat)
    requires n <= |calls| && leaf < |LeafLog(calls, n)|
    ensures k < n && i < |Appends(calls[k])| && leaf == |LeafLog(calls, k)| + i
  {
    hide Appends;
    LogStep(calls, n - 1);
    if leaf < |LeafLog(calls, n - 1)| {
      k, i := LeafFromCall(calls, n - 1, leaf);
    } else {
      k, i := n - 1, leaf - |LeafLog(calls, n - 1)|;
    }
  }

  /** And every leaf entity is that of some call's output. */
  lemma {:induction false} LeavesAreOutputs(env: Env, calls: seq<BondCall>, n: nat, id: string) returns (k: nat, i: nat, v: Digest)
    requires n <= |calls| && id in StoreAfter(env, calls, n).commitments
    ensures k < n && Outputs(calls[k], i, v) && id == Padded(OutputsThrough(calls, k) + i)
  {
    hide StoreAfter, LeafLog, CallLog, Outputs, Appends;
    IndexIsLogged(env, calls, n);
    assert IsPosition(id, |LeafLog(calls, n)|);
    var leaf: nat :| leaf < |LeafLog(calls, n)| && id == Padded(leaf);
    k, i := LeafFromCall(calls, n, leaf);
    v := Appends(calls[k])[i];
    OutputsAreAppended(calls[k], i, v);
    LogLengths(calls, k);
  }

  // ----- the spent notes -----------------------------------------------------------------------------

  /** Saving the first `n` notes files exactly those. */
  lemma {:induction false} NotesSaved(m: map<string, Nullifier>, ctx: EthCall, source: Source, callId: string,
                                      values: seq<Digest>, n: nat, v: Digest)
    requires n <= |values|
    ensures var m', id := SavedTo(m, SpentEntries(ctx, source, callId, values), n), ToHex(v);
            if v in values[..n] then id in m' && m'[id] == NullifierOf(ctx, source, callId, v)
            else (id in m' <==> id in m) && (id in m ==> m'[id] == m[id])
  {
    hide ToHex;
    if n > 0 {
      NotesSaved(m, ctx, source, callId, values, n - 1, v);
      assert values[..n] == values[..n - 1] + [values[n - 1]];
      if ToHex(v) == ToHex(values[n - 1]) { ToHexInjective(v, values[n - 1]); }
    }
  }

  /** Nothing else is filed. */
  lemma {:induction false} NoteKeys(m: map<string, Nullifier>, ctx: EthCall, source: Source, callId: string,
                                    values: seq<Digest>, n: nat, id: string)
    requires n <= |values| && id in SavedTo(m, SpentEntries(ctx, source, callId, values), n)
    ensures id in m || exists v :: v in values && id == ToHex(v)
  {
    hide ToHex;
    if n > 0 && id != ToHex(values[n - 1]) { NoteKeys(m, ctx, source, callId, values, n - 1, id); }
  }

  lemma {:induction false} NotesNext(env: Env, calls: seq<BondCall>, k: nat, n: nat)
    requires k + 1 == n <= |calls|
    ensures StoreAfter(env, calls, n).nullifiers ==
              Saved(StoreAfter(env, calls, k).nullifiers,
                    SpentEntries(calls[k].ctx, Kind(calls[k]), Padded(k), Spends(calls[k])))
  {
    hide Handled, IsTable, Loaded, Padded, Saved;
    var s := StoreAfter(env, calls, k);
    IndexIsLogged(env, calls, k);
    LoadedIs(env, calls, k, s);
    HandledFields(env, s, calls[k], Loaded(env, s, calls[k].ctx));
  }

  lemma {:induction false} NoteNext(env: Env, calls: seq<BondCall>, k: nat, n: nat, v: Digest)
    requires k + 1 == n <= |calls|
    ensures var m, m', id := StoreAfter(env, calls, k).nullifiers, StoreAfter(env, calls, n).nullifiers, ToHex(v);
            if SpendsNote(calls[k], v) then id in m' && NoteEntity(calls[k], k, v, m'[id])
            else (id in m' <==> id in m) && (id in m ==> m'[id] == m[id])
  {
    hide StoreAfter, SpendsNote, Spends, Kind, ToHex, SpentEntries;
    NotesNext(env, calls, k, n);
    NotesAreSpent(calls[k], v);
    NamesTheCall(calls[k]);
    var values := Spends(calls[k]);
    NotesSaved(StoreAfter(env, calls, k).nullifiers, calls[k].ctx, Kind(calls[k]), Padded(k), values, |values|, v);
    assert values[..|values|] == values;
  }

  /** The entity of a spent note is that of the last call that spent it. */
  lemma {:induction false} NoteEntities(env: Env, calls: seq<BondCall>, n: nat, k: nat, v: Digest)
    requires k < n <= |calls| && SpendsNote(calls[k], v) && forall j :: k < j < n ==> !SpendsNote(calls[j], v)
    ensures var m := StoreAfter(env, calls, n).nullifiers; ToHex(v) in m && NoteEntity(calls[k], k, v, m[ToHex(v)])
    decreases n
  {
    hide StoreAfter, SpendsNote, NoteEntity, ToHex;
    NoteNext(env, calls, n - 1, n, v);
    if k < n - 1 { NoteEntities(env, calls, n - 1, k, v); }
  }

  /** And every entity is that of a note some call spent. */
  lemma {:induction false} NotesWereSpent(env: Env, calls: seq<BondCall>, n: nat, id: string) returns (k: nat, v: Digest)
    requires n <= |calls| && id in StoreAfter(env, calls, n).nullifiers
    ensures k < n && SpendsNote(calls[k], v) && id == ToHex(v)
  {
    hide Handled, SpendsNote, Spends, ToHex, SpentEntries;
    if n > 0 {
      if id in StoreAfter(env, calls, n - 1).nullifiers {
        k, v := NotesWereSpent(env, calls, n - 1, id);
      } else {
        NotesNext(env, calls, n - 1, n);
        k := n - 1;
        var values := Spends(calls[k]);
        NoteKeys(StoreAfter(env, calls, k).nullifiers, calls[k].ctx, Kind(calls[k]), Padded(k), values, |values|, id);
        v :| v in values && id == ToHex(v);
        NotesAreSpent(calls[k], v);
      }
    }
  }

  // ----- the cited roots -----------------------------------------------------------------------------

  lemma {:induction false} ClaimLogNext(calls: seq<BondCall>, k: nat, n: nat)
    requires k + 1 == n <= |calls|
    ensures ClaimLog(calls, n) == ClaimLog(calls, k) + CallClaims(calls[k], k)
  {
    hide CallClaims;
  }

  lemma {:induction false} ClaimLogGrows(calls: seq<BondCall>, k: nat, n: nat)
    requires k <= n <= |calls|
    ensures ClaimLog(calls, k) <= ClaimLog(calls, n)
    decreases n
  {
    hide ClaimLog, CallClaims;
    if k < n {
      ClaimLogGrows(calls, k, n - 1);
      ClaimLogNext(calls, n - 1, n);
    }
  }

  lemma ClaimEntry(call: BondCall, k: nat, i: nat)
    requires i < |Claims(call)|
    ensures CallClaims(call, k)[i].0 == Padded(k) + "-" + Claims(call)[i].suffix
    ensures RootEntity(call, k, Claims(call)[i].root, CallClaims(call, k)[i].1)
  {
    NamesTheCall(call);
  }

  /** A cited root is filed under its call and suffix. */
  lemma {:induction false} RootEntities(env: Env, calls: seq<BondCall>, n: nat, k: nat, suffix: string, root: Digest)
    requires k < n <= |calls| && Cites(calls[k], suffix, root)
    ensures var m, id := StoreAfter(env, calls, n).roots, Padded(k) + "-" + suffix;
            id in m && RootEntity(calls[k], k, root, m[id])
  {
    hide StoreAfter, ClaimLog, CallClaims, Claims, Cites, Padded, RootEntity, DistinctKeys;
    ClaimsAreLogged(env, calls, n);
    CitationsAreClaimed(calls[k], suffix, root);
    var i :| 0 <= i < |Claims(calls[k])| && Claims(calls[k])[i] == Claim(suffix, root);
    ClaimEntry(calls[k], k, i);
    ClaimLogNext(calls, k, k + 1);
    ClaimLogGrows(calls, k + 1, n);
    var at := |ClaimLog(calls, k)| + i;
    assert ClaimLog(calls, n)[at] == ClaimLog(calls, k + 1)[at] == CallClaims(calls[k], k)[i];
  }

  lemma {:induction false} ClaimOfCall(calls: seq<BondCall>, n: nat, at: nat) returns (k: nat, i: nat)
    requires n <= |calls| && at < |ClaimLog(calls, n)|
    ensures k < n && i < |Claims(calls[k])| && ClaimLog(calls, n)[at] == CallClaims(calls[k], k)[i]
  {
    hide CallClaims, Claims;
    ClaimLogNext(calls, n - 1, n);
    if at < |ClaimLog(calls, n - 1)| {
      k, i := ClaimOfCall(calls, n - 1, at);
    } else {
      k, i := n - 1, at - |ClaimLog(calls, n - 1)|;
    }
  }

  /** And every root entity is that of some call's citation. */
  lemma {:induction false} RootsWereCited(env: Env, calls: seq<BondCall>, n: nat, id: string)
    returns (k: nat, suffix: string, root: Digest)
    requires n <= |calls| && id in StoreAfter(env, calls, n).roots
    ensures k < n && Cites(calls[k], suffix, root) && id == Padded(k) + "-" + suffix
  {
    hide StoreAfter, ClaimLog, CallClaims, Claims, Cites, Padded, RootEntity, DistinctKeys;
    ClaimsAreLogged(env, calls, n);
    var at :| 0 <= at < |ClaimLog(calls, n)| && ClaimLog(calls, n)[at].0 == id;
    var i;
    k, i := ClaimOfCall(calls, n, at);
    suffix, root := Claims(calls[k])[i].suffix, Claims(calls[k])[i].root;
    ClaimEntry(calls[k], k, i);
    CitationsAreClaimed(calls[k], suffix, root);
  }
}
