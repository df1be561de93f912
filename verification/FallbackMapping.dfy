/** Indexing the commitments array without traces: subgraph/src/mapping-fallback-a.ts. */
module FallbackMapping {
  import opened Basics
  import opened ByteCodec
  import opened Text
  import opened BondMapping

  const MAX_NEW_LEAVES_PER_BLOCK: nat := 512

  /** What the handler can read at one block: `bondId()` (`None` before deployment) and the array getter. */
  datatype BlockView = BlockView(number: int, timestamp: int, bondId: Option<Digest>, leaves: seq<Digest>)

  /** How many leaves one walk from leaf `from` appends: up to the end of the array, and no more than the cap. */
  function Taken(from: nat, view: BlockView): (r: nat)
    ensures r <= MAX_NEW_LEAVES_PER_BLOCK && (r > 0 ==> from + r <= |view.leaves|)
  {
    if |view.leaves| <= from then 0
    else if |view.leaves| - from <= MAX_NEW_LEAVES_PER_BLOCK then |view.leaves| - from
    else MAX_NEW_LEAVES_PER_BLOCK
  }

  /** The leaves that walk appends. */
  function NewLeaves(from: nat, view: BlockView): (r: seq<Digest>)
    ensures |r| == Taken(from, view)
  {
    if Taken(from, view) == 0 then [] else view.leaves[from..from + Taken(from, view)]
  }

  /** Neither a transaction nor a caller is known here. */
  function BlockCtx(address: Bytes, view: BlockView): EthCall {
    EthCall(address, [], [], view.number, view.timestamp)
  }

  function SyntheticCall(view: BlockView, sequence: nat, leafCountAfter: nat): LifecycleCall {
    LifecycleCall(sequence, UNKNOWN, leafCountAfter, [], 0, [], view.number, view.timestamp, [])
  }

  function Opened(address: Bytes, s: BondStore, bondId: Digest): Bond {
    if s.bond.Some? then s.bond.value else Bond(address, bondId, 0, 0, 0)
  }

  /** The store once `bond` has walked the block. */
  function WalkedFrom(address: Bytes, s: BondStore, bond: Bond, view: BlockView): BondStore {
    var added, id := NewLeaves(bond.leafCount, view), Padded(bond.callCount);
    if added == [] then s.(bond := Some(bond))
    else s.(
      bond := Some(bond.(leafCount := bond.leafCount + |added|, callCount := bond.callCount + 1)),
      commitments := Saved(s.commitments, LeafEntries(BlockCtx(address, view), UNKNOWN, id, bond.leafCount, added)),
      calls := s.calls[id := SyntheticCall(view, bond.callCount, bond.leafCount + |added|)])
  }

  /** One block: nothing before deployment; then the walk, and one synthetic entry if it appended anything. */
  function Walked(address: Bytes, s: BondStore, view: BlockView): BondStore {
    if s.bond.None? && view.bondId.None? then s
    else WalkedFrom(address, s, Opened(address, s, if view.bondId.Some? then view.bondId.value else ZERO32), view)
  }

  function RunBlocks(address: Bytes, views: seq<BlockView>, n: nat): BondStore
    requires n <= |views|
  {
    if n == 0 then EMPTY else Walked(address, RunBlocks(address, views, n - 1), views[n - 1])
  }

  lemma NothingSaved(m: map<string, Commitment>, ctx: EthCall, id: string, from: nat)
    ensures Saved(m, LeafEntries(ctx, UNKNOWN, id, from, [])) == m
  {}

  class FallbackIndex {
    const address: Bytes
    var bond: Option<Bond>
    var commitments: map<string, Commitment>
    var calls: map<string, LifecycleCall>

    ghost function Contents(): BondStore
      reads this
    {
      BondStore(bond, commitments, map[], map[], calls)
    }

    constructor (address: Bytes)
      ensures this.address == address && Contents() == EMPTY
    {
      this.address := address;
      bond, commitments, calls := None, map[], map[];
    }

    method HandleBlock(view: BlockView)
      modifies this
      ensures Contents() == Walked(address, old(Contents()), view)
    {
      if bond.None? {
        if view.bondId.None? { return; }
        bond := Some(Bond(address, view.bondId.value, 0, 0, 0));
      }
      WalkArray(bond.value, view);
    }

    method WalkArray(loaded: Bond, view: BlockView)
      requires bond == Some(loaded)
      modifies this
      ensures Contents() == WalkedFrom(address, old(Contents()), loaded, view)
    {
      var id := PadId(loaded.callCount);
      var b := AppendNew(loaded, id, view);
      if b.leafCount == loaded.leafCount {
        bond := Some(b);
        return;
      }
      calls := calls[id := LifecycleCall(b.callCount, UNKNOWN, b.leafCount, [], 0, [], view.number, view.timestamp, [])];
      bond := Some(b.(callCount := b.callCount + 1));
    }

    /** Reads the getter leaf by leaf until it reverts or the cap is reached. */
    method AppendNew(loaded: Bond, id: string, view: BlockView) returns (b: Bond)
      modifies this
      ensures b == loaded.(leafCount := loaded.leafCount + Taken(loaded.leafCount, view))
      ensures Contents() == old(Contents()).(commitments :=
                Saved(old(commitments), LeafEntries(BlockCtx(address, view), UNKNOWN, id, loaded.leafCount,
                                                    NewLeaves(loaded.leafCount, view))))
    {
      hide LeafEntries, Saved, Padded;
      b := loaded;
      NothingSaved(commitments, BlockCtx(address, view), id, loaded.leafCount);
      var appended: nat := 0;
      ghost var from, added := loaded.leafCount, NewLeaves(loaded.leafCount, view);
      assert added[..0] == [];
      while appended < MAX_NEW_LEAVES_PER_BLOCK
        invariant appended <= |added| && b == loaded.(leafCount := from + appended)
        invariant Contents() == old(Contents()).(commitments :=
                    Saved(old(commitments), LeafEntries(BlockCtx(address, view), UNKNOWN, id, from, added[..appended])))
        decreases MAX_NEW_LEAVES_PER_BLOCK - appended
      {
        if b.leafCount >= |view.leaves| { break; }
        var value := view.leaves[b.leafCount];
        assert added[..appended + 1] == added[..appended] + [value];
        SaveLeaf(old(commitments), BlockCtx(address, view), UNKNOWN, id, from, added[..appended], value);
        var leafId := PadId(b.leafCount);
        commitments := commitments[leafId := Commitment(b.leafCount, value, UNKNOWN, id, [], view.number, view.timestamp, [])];
        b := b.(leafCount := b.leafCount + 1);
        appended := appended + 1;
      }
      assert added[..|added|] == added;
    }
  }
}
