/** Indexing the bond contract's calls: subgraph/src/mapping.ts. */
module BondMapping {
  import opened Basics
  import opened ByteCodec
  import opened Text

  /** Where a call comes from: the fields every handler copies. */
  datatype EthCall = EthCall(to: Bytes, from: Bytes, txHash: Bytes, blockNumber: int, timestamp: int)

  /** The calldata of the five anchor-writing functions. */
  datatype BondCall =
    | Mint(ctx: EthCall, commitment: Digest)
    | MintBatch(ctx: EthCall, commitments: seq<Digest>)
    | Transfer(ctx: EthCall, proof: Bytes, root: Digest, nullifiersIn: seq<Digest>, commitmentsOut: seq<Digest>)
    | Burn(ctx: EthCall, proof: Bytes, root: Digest, nullifiersIn: seq<Digest>, commitmentsOut: seq<Digest>)
    | AtomicSwap(ctx: EthCall, proofA: Bytes, inputsA: seq<Digest>, inputsB: seq<Digest>)

  datatype Source = MINT | MINT_BATCH | TRANSFER | BURN | ATOMIC_SWAP | UNKNOWN

  datatype Bond = Bond(address: Bytes, bondId: Digest, leafCount: nat, nullifierCount: nat, callCount: nat)

  datatype Commitment = Commitment(leafIndex: nat, value: Digest, source: Source, callId: string,
                                   txHash: Bytes, blockNumber: int, timestamp: int, caller: Bytes)

  datatype Nullifier = Nullifier(value: Digest, source: Source, callId: string,
                                 txHash: Bytes, blockNumber: int, timestamp: int, caller: Bytes)

  datatype RootClaimed = RootClaimed(root: Digest, source: Source, callId: string,
                                     txHash: Bytes, blockNumber: int, timestamp: int)

  datatype LifecycleCall = LifecycleCall(sequence: nat, source: Source, leafCountAfter: nat, proofHash: Bytes,
                                         proofLength: nat, txHash: Bytes, blockNumber: int, timestamp: int, caller: Bytes)

  datatype BondStore = BondStore(bond: Option<Bond>, commitments: map<string, Commitment>,
                                 nullifiers: map<string, Nullifier>, roots: map<string, RootClaimed>,
                                 calls: map<string, LifecycleCall>)

  const EMPTY: BondStore := BondStore(None, map[], map[], map[], map[])

  /** The two things a handler asks the outside for: the hash, and `bondId()` (`None` if it reverts). */
  datatype Env = Env(keccak: Hash, bondId: Option<Digest>)

  // ----- what a call says ---------------------------------------------------------

  function Kind(call: BondCall): Source {
    match call
    case Mint(_, _) => MINT
    case MintBatch(_, _) => MINT_BATCH
    case Transfer(_, _, _, _, _) => TRANSFER
    case Burn(_, _, _, _, _) => BURN
    case AtomicSwap(_, _, _, _) => ATOMIC_SWAP
  }

  function Proof(call: BondCall): Bytes {
    match call
    case Mint(_, _) => []
    case MintBatch(_, _) => []
    case Transfer(_, proof, _, _, _) => proof
    case Burn(_, proof, _, _, _) => proof
    case AtomicSwap(_, proofA, _, _) => proofA
  }

  /** One side of an atomic swap: its public inputs are root, nullifier, commitment, maturity. */
  datatype Leg = Leg(name: string, inputs: seq<Digest>)

  const LEG_INPUTS: nat := 4

  function Legs(inputsA: seq<Digest>, inputsB: seq<Digest>): (r: seq<Leg>)
    ensures |r| == 2
  {
    [Leg("A", inputsA), Leg("B", inputsB)]
  }

  /** A leg with too few inputs contributes nothing. */
  function LegSpends(): Leg -> seq<Digest> {
    (leg: Leg) => if |leg.inputs| < LEG_INPUTS then [] else [leg.inputs[1]]
  }

  function LegAppends(): Leg -> seq<Digest> {
    (leg: Leg) => if |leg.inputs| < LEG_INPUTS then [] else [leg.inputs[2]]
  }

  datatype Claim = Claim(suffix: string, root: Digest)

  function LegClaims(): Leg -> seq<Claim> {
    (leg: Leg) => if |leg.inputs| < LEG_INPUTS then [] else [Claim("root" + leg.name, leg.inputs[0])]
  }

  function Both<T>(f: Leg -> seq<T>, legs: seq<Leg>): seq<T>
    requires |legs| == 2
  {
    f(legs[0]) + f(legs[1])
  }

  function Appends(call: BondCall): seq<Digest> {
    match call
    case Mint(_, commitment) => [commitment]
    case MintBatch(_, commitments) => commitments
    case Transfer(_, _, _, _, out) => out
    case Burn(_, _, _, _, out) => out
    case AtomicSwap(_, _, a, b) => Both(LegAppends(), Legs(a, b))
  }

  function Spends(call: BondCall): seq<Digest> {
    match call
    case Mint(_, _) => []
    case MintBatch(_, _) => []
    case Transfer(_, _, _, spent, _) => spent
    case Burn(_, _, _, spent, _) => spent
    case AtomicSwap(_, _, a, b) => Both(LegSpends(), Legs(a, b))
  }

  /** The roots a call cites. */
  function Claims(call: BondCall): seq<Claim> {
    match call
    case Mint(_, _) => []
    case MintBatch(_, _) => []
    case Transfer(_, _, root, _, _) => [Claim("root", root)]
    case Burn(_, _, root, _, _) => [Claim("root", root)]
    case AtomicSwap(_, _, a, b) => Both(LegClaims(), Legs(a, b))
  }

  lemma BothLegs<T>(f: Leg -> seq<T>, legs: seq<Leg>)
    requires |legs| == 2
    ensures Collect(f, legs) == Both(f, legs)
  {
    assert CollectTo(f, legs, 0) == [] && CollectTo(f, legs, 1) == [] + f(legs[0]);
  }

  // ----- one call on the store ------------------------------------------------------

  /** A `bondId()` that reverts is recorded as zero. */
  function BondIdOf(env: Env): Digest {
    if env.bondId.None? then ZERO32 else env.bondId.value
  }

  function Loaded(env: Env, s: BondStore, ctx: EthCall): Bond {
    if s.bond.Some? then s.bond.value
    else Bond(ctx.to, BondIdOf(env), 0, 0, 0)
  }

  function CommitmentOf(ctx: EthCall, source: Source, callId: string, leafIndex: nat, value: Digest): Commitment {
    Commitment(leafIndex, value, source, callId, ctx.txHash, ctx.blockNumber, ctx.timestamp, ctx.from)
  }

  function NullifierOf(ctx: EthCall, source: Source, callId: string, value: Digest): Nullifier {
    Nullifier(value, source, callId, ctx.txHash, ctx.blockNumber, ctx.timestamp, ctx.from)
  }

  function RootOf(ctx: EthCall, source: Source, callId: string, root: Digest): RootClaimed {
    RootClaimed(root, source, callId, ctx.txHash, ctx.blockNumber, ctx.timestamp)
  }

  function CallOf(env: Env, ctx: EthCall, source: Source, proof: Bytes, sequence: nat, leafCountAfter: nat): LifecycleCall {
    LifecycleCall(sequence, source, leafCountAfter, env.keccak(proof), |proof|,
                  ctx.txHash, ctx.blockNumber, ctx.timestamp, ctx.from)
  }

  /** The entities of values appended as the leaves `first`, `first + 1`, ..., with their ids. */
  function LeafEntries(ctx: EthCall, source: Source, callId: string, first: nat, values: seq<Digest>)
    : (r: seq<(string, Commitment)>)
    ensures |r| == |values|
  {
    seq(|values|, i requires 0 <= i < |values| =>
      (Padded(first + i), CommitmentOf(ctx, source, callId, first + i, values[i])))
  }

  function SpentEntries(ctx: EthCall, source: Source, callId: string, values: seq<Digest>): (r: seq<(string, Nullifier)>)
    ensures |r| == |values|
  {
    seq(|values|, i requires 0 <= i < |values| => (ToHex(values[i]), NullifierOf(ctx, source, callId, values[i])))
  }

  function ClaimId(callId: string, suffix: string): string { callId + "-" + suffix }

  function ClaimEntries(ctx: EthCall, source: Source, callId: string, claims: seq<Claim>): (r: seq<(string, RootClaimed)>)
    ensures |r| == |claims|
  {
    seq(|claims|, i requires 0 <= i < |claims| =>
      (ClaimId(callId, claims[i].suffix), RootOf(ctx, source, callId, claims[i].root)))
  }

  lemma SaveLeaf(m: map<string, Commitment>, ctx: EthCall, source: Source, callId: string, first: nat,
                 values: seq<Digest>, v: Digest)
    ensures Saved(m, LeafEntries(ctx, source, callId, first, values + [v])) ==
              Saved(m, LeafEntries(ctx, source, callId, first, values))
              [Padded(first + |values|) := CommitmentOf(ctx, source, callId, first + |values|, v)]
  {
    var k, e := Padded(first + |values|), CommitmentOf(ctx, source, callId, first + |values|, v);
    assert LeafEntries(ctx, source, callId, first, values + [v]) ==
           LeafEntries(ctx, source, callId, first, values) + [(k, e)];
    SavedStep(m, LeafEntries(ctx, source, callId, first, values), k, e);
  }

  lemma SaveSpent(m: map<string, Nullifier>, ctx: EthCall, source: Source, callId: string, values: seq<Digest>, v: Digest)
    ensures Saved(m, SpentEntries(ctx, source, callId, values + [v])) ==
              Saved(m, SpentEntries(ctx, source, callId, values))[ToHex(v) := NullifierOf(ctx, source, callId, v)]
  {
    var k, e := ToHex(v), NullifierOf(ctx, source, callId, v);
    assert SpentEntries(ctx, source, callId, values + [v]) == SpentEntries(ctx, source, callId, values) + [(k, e)];
    SavedStep(m, SpentEntries(ctx, source, callId, values), k, e);
  }

  lemma SaveClaim(m: map<string, RootClaimed>, ctx: EthCall, source: Source, callId: string, claims: seq<Claim>, c: Claim)
    ensures Saved(m, ClaimEntries(ctx, source, callId, claims + [c])) ==
              Saved(m, ClaimEntries(ctx, source, callId, claims))
              [ClaimId(callId, c.suffix) := RootOf(ctx, source, callId, c.root)]
  {
    var k, e := ClaimId(callId, c.suffix), RootOf(ctx, source, callId, c.root);
    assert ClaimEntries(ctx, source, callId, claims + [c]) == ClaimEntries(ctx, source, callId, claims) + [(k, e)];
    SavedStep(m, ClaimEntries(ctx, source, callId, claims), k, e);
  }

  lemma SaveOneClaim(m: map<string, RootClaimed>, ctx: EthCall, source: Source, callId: string, c: Claim)
    ensures Saved(m, ClaimEntries(ctx, source, callId, [c])) == m[ClaimId(callId, c.suffix) := RootOf(ctx, source, callId, c.root)]
  {
    SaveClaim(m, ctx, source, callId, [], c);
    assert [] + [c] == [c];
  }

  lemma ClaimLegStep(m: map<string, RootClaimed>, ctx: EthCall, callId: string, legs: seq<Leg>, i: nat)
    requires i < |legs|
    ensures var before, after := CollectTo(LegClaims(), legs, i), CollectTo(LegClaims(), legs, i + 1);
            var inputs, saved := legs[i].inputs, Saved(m, ClaimEntries(ctx, ATOMIC_SWAP, callId, before));
            Saved(m, ClaimEntries(ctx, ATOMIC_SWAP, callId, after)) ==
              if |inputs| < LEG_INPUTS then saved
              else saved[ClaimId(callId, "root" + legs[i].name) := RootOf(ctx, ATOMIC_SWAP, callId, inputs[0])]
  {
    var before := CollectTo(LegClaims(), legs, i);
    if |legs[i].inputs| < LEG_INPUTS {
      assert CollectTo(LegClaims(), legs, i + 1) == before;
    } else {
      var c := Claim("root" + legs[i].name, legs[i].inputs[0]);
      assert CollectTo(LegClaims(), legs, i + 1) == before + [c];
      SaveClaim(m, ctx, ATOMIC_SWAP, callId, before, c);
    }
  }

  lemma SpendLegStep(m: map<string, Nullifier>, ctx: EthCall, callId: string, legs: seq<Leg>, i: nat)
    requires i < |legs|
    ensures var before, after := CollectTo(LegSpends(), legs, i), CollectTo(LegSpends(), legs, i + 1);
            var inputs, saved := legs[i].inputs, Saved(m, SpentEntries(ctx, ATOMIC_SWAP, callId, before));
            if |inputs| < LEG_INPUTS then after == before
            else |after| == |before| + 1 && Saved(m, SpentEntries(ctx, ATOMIC_SWAP, callId, after)) ==
                   saved[ToHex(inputs[1]) := NullifierOf(ctx, ATOMIC_SWAP, callId, inputs[1])]
  {
    var before := CollectTo(LegSpends(), legs, i);
    if |legs[i].inputs| < LEG_INPUTS {
      assert CollectTo(LegSpends(), legs, i + 1) == before;
    } else {
      assert CollectTo(LegSpends(), legs, i + 1) == before + [legs[i].inputs[1]];
      SaveSpent(m, ctx, ATOMIC_SWAP, callId, before, legs[i].inputs[1]);
    }
  }

  lemma AppendLegStep(m: map<string, Commitment>, ctx: EthCall, callId: string, first: nat, legs: seq<Leg>, i: nat)
    requires i < |legs|
    ensures var before, after := CollectTo(LegAppends(), legs, i), CollectTo(LegAppends(), legs, i + 1);
            var inputs, saved := legs[i].inputs, Saved(m, LeafEntries(ctx, ATOMIC_SWAP, callId, first, before));
            var leaf := first + |before|;
            if |inputs| < LEG_INPUTS then after == before
            else |after| == |before| + 1 && Saved(m, LeafEntries(ctx, ATOMIC_SWAP, callId, first, after)) ==
                   saved[Padded(leaf) := CommitmentOf(ctx, ATOMIC_SWAP, callId, leaf, inputs[2])]
  {
    var before := CollectTo(LegAppends(), legs, i);
    if |legs[i].inputs| < LEG_INPUTS {
      assert CollectTo(LegAppends(), legs, i + 1) == before;
    } else {
      assert CollectTo(LegAppends(), legs, i + 1) == before + [legs[i].inputs[2]];
      SaveLeaf(m, ctx, ATOMIC_SWAP, callId, first, before, legs[i].inputs[2]);
    }
  }

  /** The store after a call: one new lifecycle entry, and what the call claims, spends and appends filed under it. */
  function Filed(env: Env, s: BondStore, ctx: EthCall, source: Source, proof: Bytes, claims: seq<Claim>, spent: seq<Digest>,
                 leaves: seq<Digest>): BondStore {
    var bond := Loaded(env, s, ctx);
    var id := Padded(bond.callCount);
    BondStore(
      Some(bond.(leafCount := bond.leafCount + |leaves|, nullifierCount := bond.nullifierCount + |spent|,
                 callCount := bond.callCount + 1)),
      Saved(s.commitments, LeafEntries(ctx, source, id, bond.leafCount, leaves)),
      Saved(s.nullifiers, SpentEntries(ctx, source, id, spent)),
      Saved(s.roots, ClaimEntries(ctx, source, id, claims)),
      s.calls[id := CallOf(env, ctx, source, proof, bond.callCount, bond.leafCount + |leaves|)])
  }

  function Handled(env: Env, s: BondStore, call: BondCall): BondStore {
    Filed(env, s, call.ctx, Kind(call), Proof(call), Claims(call), Spends(call), Appends(call))
  }

  /** The handlers' common shape: load, file, claim, spend, append, finalise. */
  lemma Assembled(env: Env, s: BondStore, ctx: EthCall, source: Source, proof: Bytes, claims: seq<Claim>, spent: seq<Digest>,
                  leaves: seq<Digest>, b: Bond, id: string, s': BondStore)
    requires b == Loaded(env, s, ctx) && id == Padded(b.callCount)
    requires s'.bond == Some(b.(leafCount := b.leafCount + |leaves|, nullifierCount := b.nullifierCount + |spent|,
                                callCount := b.callCount + 1))
    requires s'.commitments == Saved(s.commitments, LeafEntries(ctx, source, id, b.leafCount, leaves))
    requires s'.nullifiers == Saved(s.nullifiers, SpentEntries(ctx, source, id, spent))
    requires s'.roots == Saved(s.roots, ClaimEntries(ctx, source, id, claims))
    requires s'.calls == s.calls[id := CallOf(env, ctx, source, proof, b.callCount, b.leafCount + |leaves|)]
    ensures s' == Filed(env, s, ctx, source, proof, claims, spent, leaves)
  {}

  /** The store after the first `n` calls. */
  function StoreAfter(env: Env, calls: seq<BondCall>, n: nat): BondStore
    requires n <= |calls|
  {
    if n == 0 then EMPTY else Handled(env, StoreAfter(env, calls, n - 1), calls[n - 1])
  }

  // ----- the handlers ---------------------------------------------------------------

  class BondIndex {
    const env: Env
    var bond: Option<Bond>
    var commitments: map<string, Commitment>
    var nullifiers: map<string, Nullifier>
    var roots: map<string, RootClaimed>
    var calls: map<string, LifecycleCall>

    ghost function Contents(): BondStore
      reads this
    {
      BondStore(bond, commitments, nullifiers, roots, calls)
    }

    constructor (env: Env)
      ensures this.env == env && Contents() == EMPTY
    {
      this.env := env;
      bond, commitments, nullifiers, roots, calls := None, map[], map[], map[], map[];
    }

    method LoadBond(ctx: EthCall) returns (b: Bond)
      modifies this
      ensures b == Loaded(env, old(Contents()), ctx) && Contents() == old(Contents()).(bond := Some(b))
    {
      if bond.Some? { return bond.value; }
      b := Bond(ctx.to, if env.bondId.None? then ZERO32 else env.bondId.value, 0, 0, 0);
      bond := Some(b);
    }

    /** Files the call with a provisional leaf count and takes the next sequence number. */
    method RecordCall(ctx: EthCall, source: Source, proof: Bytes, b: Bond) returns (id: string, entity: LifecycleCall, b': Bond)
      modifies this
      ensures id == Padded(b.callCount) && b' == b.(callCount := b.callCount + 1)
      ensures entity == CallOf(env, ctx, source, proof, b.callCount, b.leafCount)
      ensures Contents() == old(Contents()).(calls := old(calls)[id := entity])
    {
      id := PadId(b.callCount);
      entity := LifecycleCall(b.callCount, source, b.leafCount, env.keccak(proof), |proof|,
                              ctx.txHash, ctx.blockNumber, ctx.timestamp, ctx.from);
      calls := calls[id := entity];
      b' := b.(callCount := b.callCount + 1);
    }

    /** The leaf count is only known once the leaves are in. */
    method FinalizeCall(id: string, entity: LifecycleCall, b: Bond)
      modifies this
      ensures Contents() == old(Contents()).(bond := Some(b), calls := old(calls)[id := entity.(leafCountAfter := b.leafCount)])
    {
      calls := calls[id := entity.(leafCountAfter := b.leafCount)];
      bond := Some(b);
    }

    method AppendCommitment(ctx: EthCall, id: string, b: Bond, value: Digest, source: Source) returns (b': Bond)
      modifies this
      ensures Contents() == old(Contents()).(commitments := old(commitments)[Padded(b.leafCount) := CommitmentOf(ctx, source, id, b.leafCount, value)])
      ensures b' == b.(leafCount := b.leafCount + 1)
    {
      var leafId := PadId(b.leafCount);
      commitments := commitments[leafId := Commitment(b.leafCount, value, source, id, ctx.txHash, ctx.blockNumber,
                                                      ctx.timestamp, ctx.from)];
      b' := b.(leafCount := b.leafCount + 1);
    }

    method MarkNullifier(ctx: EthCall, id: string, b: Bond, value: Digest, source: Source) returns (b': Bond)
      modifies this
      ensures Contents() == old(Contents()).(nullifiers := old(nullifiers)[ToHex(value) := NullifierOf(ctx, source, id, value)])
      ensures b' == b.(nullifierCount := b.nullifierCount + 1)
    {
      nullifiers := nullifiers[ToHex(value) := Nullifier(value, source, id, ctx.txHash, ctx.blockNumber,
                                                         ctx.timestamp, ctx.from)];
      b' := b.(nullifierCount := b.nullifierCount + 1);
    }

    method RecordClaimedRoot(ctx: EthCall, id: string, root: Digest, source: Source, suffix: string)
      modifies this
      ensures Contents() == old(Contents()).(roots := old(roots)[ClaimId(id, suffix) := RootOf(ctx, source, id, root)])
    {
      roots := roots[id + "-" + suffix := RootClaimed(root, source, id, ctx.txHash, ctx.blockNumber, ctx.timestamp)];
    }

    method AppendAll(ctx: EthCall, id: string, b: Bond, values: seq<Digest>, source: Source) returns (b': Bond)
      modifies this
      ensures Contents() == old(Contents()).(commitments := Saved(old(commitments), LeafEntries(ctx, source, id, b.leafCount, values)))
      ensures b' == b.(leafCount := b.leafCount + |values|)
    {
      b' := b;
      for i := 0 to |values|
        invariant Contents() == old(Contents()).(commitments := SavedTo(old(commitments), LeafEntries(ctx, source, id, b.leafCount, values), i))
        invariant b' == b.(leafCount := b.leafCount + i)
      {
        b' := AppendCommitment(ctx, id, b', values[i], source);
      }
    }

    method MarkAll(ctx: EthCall, id: string, b: Bond, values: seq<Digest>, source: Source) returns (b': Bond)
      modifies this
      ensures Contents() == old(Contents()).(nullifiers := Saved(old(nullifiers), SpentEntries(ctx, source, id, values)))
      ensures b' == b.(nullifierCount := b.nullifierCount + |values|)
    {
      b' := b;
      for i := 0 to |values|
        invariant Contents() == old(Contents()).(nullifiers := SavedTo(old(nullifiers), SpentEntries(ctx, source, id, values), i))
        invariant b' == b.(nullifierCount := b.nullifierCount + i)
      {
        b' := MarkNullifier(ctx, id, b', values[i], source);
      }
    }

    /** The cited root, then the nullifiers. */
    method RecordSpend(ctx: EthCall, id: string, b: Bond, root: Digest, spent: seq<Digest>, source: Source) returns (b': Bond)
      modifies this
      ensures Contents() == old(Contents()).(roots := Saved(old(roots), ClaimEntries(ctx, source, id, [Claim("root", root)])),
                                             nullifiers := Saved(old(nullifiers), SpentEntries(ctx, source, id, spent)))
      ensures b' == b.(nullifierCount := b.nullifierCount + |spent|)
    {
      RecordClaimedRoot(ctx, id, root, source, "root");
      SaveOneClaim(old(roots), ctx, source, id, Claim("root", root));
      b' := MarkAll(ctx, id, b, spent, source);
    }

    method HandleMint(ctx: EthCall, commitment: Digest)
      modifies this
      ensures Contents() == Handled(env, old(Contents()), Mint(ctx, commitment))
    {
      var b := LoadBond(ctx);
      ghost var loaded := b;
      var id, entity;
      id, entity, b := RecordCall(ctx, MINT, [], b);
      b := AppendAll(ctx, id, b, [commitment], MINT);
      FinalizeCall(id, entity, b);
      Assembled(env, old(Contents()), ctx, MINT, [], [], [], [commitment], loaded, id, Contents());
    }

    method HandleMintBatch(ctx: EthCall, values: seq<Digest>)
      modifies this
      ensures Contents() == Handled(env, old(Contents()), MintBatch(ctx, values))
    {
      var b := LoadBond(ctx);
      ghost var loaded := b;
      var id, entity;
      id, entity, b := RecordCall(ctx, MINT_BATCH, [], b);
      b := AppendAll(ctx, id, b, values, MINT_BATCH);
      FinalizeCall(id, entity, b);
      Assembled(env, old(Contents()), ctx, MINT_BATCH, [], [], [], values, loaded, id, Contents());
    }

    method HandleTransfer(ctx: EthCall, proof: Bytes, root: Digest, nullifiersIn: seq<Digest>, commitmentsOut: seq<Digest>)
      modifies this
      ensures Contents() == Handled(env, old(Contents()), Transfer(ctx, proof, root, nullifiersIn, commitmentsOut))
    {
      hide SpentEntries, ClaimEntries, LeafEntries, Saved, Padded, Loaded, Filed;
      var b := LoadBond(ctx);
      ghost var loaded := b;
      var id, entity;
      id, entity, b := RecordCall(ctx, TRANSFER, proof, b);
      b := RecordSpend(ctx, id, b, root, nullifiersIn, TRANSFER);
      b := AppendAll(ctx, id, b, commitmentsOut, TRANSFER);
      FinalizeCall(id, entity, b);
      Assembled(env, old(Contents()), ctx, TRANSFER, proof, [Claim("root", root)], nullifiersIn, commitmentsOut, loaded, id, Contents());
    }

    method HandleBurn(ctx: EthCall, proof: Bytes, root: Digest, nullifiersIn: seq<Digest>, commitmentsOut: seq<Digest>)
      modifies this
      ensures Contents() == Handled(env, old(Contents()), Burn(ctx, proof, root, nullifiersIn, commitmentsOut))
    {
      hide SpentEntries, ClaimEntries, LeafEntries, Saved, Padded, Loaded, Filed;
      var b := LoadBond(ctx);
      ghost var loaded := b;
      var id, entity;
      id, entity, b := RecordCall(ctx, BURN, proof, b);
      b := RecordSpend(ctx, id, b, root, nullifiersIn, BURN);
      b := AppendAll(ctx, id, b, commitmentsOut, BURN);
      FinalizeCall(id, entity, b);
      Assembled(env, old(Contents()), ctx, BURN, proof, [Claim("root", root)], nullifiersIn, commitmentsOut, loaded, id, Contents());
    }

    method HandleAtomicSwap(ctx: EthCall, proofA: Bytes, inputsA: seq<Digest>, inputsB: seq<Digest>)
      modifies this
      ensures Contents() == Handled(env, old(Contents()), AtomicSwap(ctx, proofA, inputsA, inputsB))
    {
      var legs := Legs(inputsA, inputsB);
      BothLegs(LegClaims(), legs);
      BothLegs(LegSpends(), legs);
      BothLegs(LegAppends(), legs);
      HandleLegs(ctx, proofA, legs, Collect(LegClaims(), legs), Collect(LegSpends(), legs), Collect(LegAppends(), legs));
    }

    /** Both legs' roots and nullifiers first, then both commitments; a leg with too few inputs is skipped. */
    method HandleLegs(ctx: EthCall, proofA: Bytes, legs: seq<Leg>, ghost claims: seq<Claim>, ghost spent: seq<Digest>,
                      ghost leaves: seq<Digest>)
      requires claims == Collect(LegClaims(), legs) && spent == Collect(LegSpends(), legs)
      requires leaves == Collect(LegAppends(), legs)
      modifies this
      ensures Contents() == Filed(env, old(Contents()), ctx, ATOMIC_SWAP, proofA, claims, spent, leaves)
    {
      hide SpentEntries, ClaimEntries, LeafEntries, Saved, Padded, Loaded;
      var b := LoadBond(ctx);
      ghost var loaded := b;
      var id, entity;
      id, entity, b := RecordCall(ctx, ATOMIC_SWAP, proofA, b);
      b := ClaimLegs(ctx, id, b, legs, claims, spent);
      b := AppendLegs(ctx, id, b, legs, leaves);
      FinalizeCall(id, entity, b);
      Assembled(env, old(Contents()), ctx, ATOMIC_SWAP, proofA, claims, spent, leaves, loaded, id, Contents());
    }

    method ClaimLegs(ctx: EthCall, id: string, b: Bond, legs: seq<Leg>, ghost claims: seq<Claim>, ghost spent: seq<Digest>)
      returns (b': Bond)
      requires claims == Collect(LegClaims(), legs) && spent == Collect(LegSpends(), legs)
      modifies this
      ensures Contents() == old(Contents()).(roots := Saved(old(roots), ClaimEntries(ctx, ATOMIC_SWAP, id, claims)),
                                             nullifiers := Saved(old(nullifiers), SpentEntries(ctx, ATOMIC_SWAP, id, spent)))
      ensures b' == b.(nullifierCount := b.nullifierCount + |spent|)
    {
      b' := b;
      for i := 0 to |legs|
        invariant var claims, spent := CollectTo(LegClaims(), legs, i), CollectTo(LegSpends(), legs, i);
                  && Contents() == old(Contents()).(roots := Saved(old(roots), ClaimEntries(ctx, ATOMIC_SWAP, id, claims)),
                                                    nullifiers := Saved(old(nullifiers), SpentEntries(ctx, ATOMIC_SWAP, id, spent)))
                  && b' == b.(nullifierCount := b.nullifierCount + |spent|)
      {
        var leg := legs[i];
        ClaimLegStep(old(roots), ctx, id, legs, i);
        SpendLegStep(old(nullifiers), ctx, id, legs, i);
        if |leg.inputs| < LEG_INPUTS { continue; }
        RecordClaimedRoot(ctx, id, leg.inputs[0], ATOMIC_SWAP, "root" + leg.name);
        b' := MarkNullifier(ctx, id, b', leg.inputs[1], ATOMIC_SWAP);
      }
    }

    method AppendLegs(ctx: EthCall, id: string, b: Bond, legs: seq<Leg>, ghost leaves: seq<Digest>) returns (b': Bond)
      requires leaves == Collect(LegAppends(), legs)
      modifies this
      ensures Contents() == old(Contents()).(commitments := Saved(old(commitments), LeafEntries(ctx, ATOMIC_SWAP, id, b.leafCount, leaves)))
      ensures b' == b.(leafCount := b.leafCount + |leaves|)
    {
      b' := b;
      for i := 0 to |legs|
        invariant var leaves := CollectTo(LegAppends(), legs, i);
                  && Contents() == old(Contents()).(commitments := Saved(old(commitments), LeafEntries(ctx, ATOMIC_SWAP, id, b.leafCount, leaves)))
                  && b' == b.(leafCount := b.leafCount + |leaves|)
      {
        var leg := legs[i];
        AppendLegStep(old(commitments), ctx, id, b.leafCount, legs, i);
        if |leg.inputs| < LEG_INPUTS { continue; }
        b' := AppendCommitment(ctx, id, b', leg.inputs[2], ATOMIC_SWAP);
      }
    }

    method HandleCall(call: BondCall)
      modifies this
      ensures Contents() == Handled(env, old(Contents()), call)
    {
      match call {
        case Mint(ctx, commitment) => HandleMint(ctx, commitment);
        case MintBatch(ctx, values) => HandleMintBatch(ctx, values);
        case Transfer(ctx, proof, root, spent, out) => HandleTransfer(ctx, proof, root, spent, out);
        case Burn(ctx, proof, root, spent, out) => HandleBurn(ctx, proof, root, spent, out);
        case AtomicSwap(ctx, proofA, a, b) => HandleAtomicSwap(ctx, proofA, a, b);
      }
    }

    /** graph-node delivers the calls in execution order. */
    method HandleAll(history: seq<BondCall>)
      requires Contents() == EMPTY
      modifies this
      ensures Contents() == StoreAfter(env, history, |history|)
    {
      for i := 0 to |history|
        invariant Contents() == StoreAfter(env, history, i)
      {
        HandleCall(history[i]);
      }
    }
  }
}
