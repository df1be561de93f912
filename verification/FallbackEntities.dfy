/** Every field of what the block handler files. */
module FallbackEntities {
  import opened Basics
  import opened ByteCodec
  import opened Text
  import opened BondMapping
  import opened BondLog
  import opened FallbackMapping
  import opened FallbackLog

  /** The log grew in block `k`. */
  ghost predicate Grew(views: seq<BlockView>, k: nat)
    requires k < |views|
  {
    Reached(views, k) < Reached(views, k + 1)
  }

  /** The number of the first `n` blocks in which the log grew. */
  ghost function Growths(views: seq<BlockView>, n: nat): nat
    requires n <= |views|
  {
    if n == 0 then 0 else Growths(views, n - 1) + if Grew(views, n - 1) then 1 else 0
  }

  /** One walk goes to the end of the array, but no further than 512 leaves. */
  lemma {:induction false} OneWalk(views: seq<BlockView>, k: nat)
    requires k < |views|
    ensures var from, end := Reached(views, k), |views[k].leaves|;
            Reached(views, k + 1) == if end <= from then from else if end <= from + 512 then end else from + 512
  {}

  // ----- the bond --------------------------------------------------------------------------------

  lemma {:induction false} BondWalked(address: Bytes, s: BondStore, view: BlockView)
    ensures var s' := Walked(address, s, view);
            && (s'.bond.None? <==> s.bond.None? && view.bondId.None?)
            && (s.bond.Some? ==> s'.bond.value.address == s.bond.value.address && s'.bond.value.bondId == s.bond.value.bondId
                                 && s'.bond.value.nullifierCount == s.bond.value.nullifierCount)
            && (s.bond.None? && view.bondId.Some? ==>
                  s'.bond.value.address == address && s'.bond.value.bondId == view.bondId.value
                  && s'.bond.value.nullifierCount == 0)
  {
    hide NewLeaves, LeafEntries, Saved, Padded;
  }

  /** There is no bond until some block answers `bondId()`. */
  lemma {:induction false} NoBond(address: Bytes, views: seq<BlockView>, n: nat)
    requires n <= |views|
    ensures RunBlocks(address, views, n).bond.None? <==> forall i :: 0 <= i < n ==> views[i].bondId.None?
  {
    hide Walked;
    if n > 0 {
      NoBond(address, views, n - 1);
      BondWalked(address, RunBlocks(address, views, n - 1), views[n - 1]);
    }
  }

  /** From then on it is the configured address with the first answer, and no nullifier is ever counted. */
  lemma {:induction false} BondEntity(address: Bytes, views: seq<BlockView>, n: nat, i: nat)
    requires i < n <= |views| && views[i].bondId.Some? && forall j :: 0 <= j < i ==> views[j].bondId.None?
    ensures var bond := RunBlocks(address, views, n).bond;
            && bond.Some? && bond.value.address == address && bond.value.bondId == views[i].bondId.value
            && bond.value.nullifierCount == 0
    decreases n
  {
    hide Walked;
    BondWalked(address, RunBlocks(address, views, n - 1), views[n - 1]);
    if i < n - 1 { BondEntity(address, views, n - 1, i); } else { NoBond(address, views, n - 1); }
  }

  // ----- the synthetic entries ---------------------------------------------------------------------

  /** No transaction, caller or proof is known of it; block and time are those of the block in which the log grew. */
  ghost predicate SyntheticEntity(view: BlockView, sequence: nat, leafCountAfter: nat, e: LifecycleCall) {
    && e.sequence == sequence && e.source == UNKNOWN && e.leafCountAfter == leafCountAfter
    && e.proofHash == [] && e.proofLength == 0 && e.txHash == [] && e.caller == []
    && e.blockNumber == view.number && e.timestamp == view.timestamp
  }

  lemma {:induction false} EntriesNext(views: seq<BlockView>, k: nat, n: nat)
    requires k + 1 == n <= |views|
    ensures WalkCalls(views, n) ==
              if Grew(views, k) then WalkCalls(views, k) + [SyntheticCall(views[k], |WalkCalls(views, k)|, Reached(views, n))]
              else WalkCalls(views, k)
  {}

  lemma {:induction false} EntryCount(views: seq<BlockView>, n: nat)
    requires n <= |views|
    ensures |WalkCalls(views, n)| == Growths(views, n)
  {
    hide WalkCalls, Grew;
    if n > 0 {
      EntryCount(views, n - 1);
      EntriesNext(views, n - 1, n);
    } else {
      NoEntries(views);
    }
  }

  lemma NoEntries(views: seq<BlockView>)
    ensures WalkCalls(views, 0) == []
  {}

  lemma {:induction false} EntryOfBlock(views: seq<BlockView>, n: nat, k: nat)
    requires k < n <= |views| && Grew(views, k)
    ensures Growths(views, k) < |WalkCalls(views, n)|
    ensures SyntheticEntity(views[k], Growths(views, k), Reached(views, k + 1), WalkCalls(views, n)[Growths(views, k)])
    decreases n
  {
    hide WalkCalls, Grew, Reached;
    EntriesNext(views, n - 1, n);
    EntryCount(views, k);
    if k < n - 1 { EntryOfBlock(views, n - 1, k); }
  }

  /** The blocks in which the log grew have one synthetic entry each, numbered in order. */
  lemma {:induction false} SyntheticEntries(address: Bytes, views: seq<BlockView>, n: nat, k: nat)
    requires k < n <= |views| && Grows(views) && Grew(views, k)
    ensures var s, q := RunBlocks(address, views, n), Growths(views, k);
            && Padded(q) in s.calls && SyntheticEntity(views[k], q, Reached(views, k + 1), s.calls[Padded(q)])
            && s.bond.Some? && s.bond.value.callCount == Growths(views, n) && s.bond.value.leafCount == Reached(views, n)
            && forall id :: id in s.calls ==> IsPosition(id, Growths(views, n))
  {
    hide RunBlocks, WalkCalls, WalkLeaves, SyntheticEntity, Reached, Grows, Grew, Padded;
    IndexIsWalked(address, views, n);
    EntryCount(views, n);
    EntryOfBlock(views, n, k);
    assert WalkCalls(views, n)[Growths(views, k)] == RunBlocks(address, views, n).calls[Padded(Growths(views, k))];
  }

  // ----- the leaves ----------------------------------------------------------------------------------

  /** The value read at its index in the block, filed under that block's entry. */
  ghost predicate LeafEntity(view: BlockView, leaf: nat, sequence: nat, e: Commitment) {
    && leaf < |view.leaves| && e.leafIndex == leaf && e.value == view.leaves[leaf]
    && e.source == UNKNOWN && e.callId == Padded(sequence) && e.txHash == [] && e.caller == []
    && e.blockNumber == view.number && e.timestamp == view.timestamp
  }

  lemma {:induction false} LeavesNext(address: Bytes, views: seq<BlockView>, k: nat, n: nat)
    requires k + 1 == n <= |views|
    ensures WalkLeaves(address, views, k) <= WalkLeaves(address, views, n)
    ensures forall leaf: nat :: Reached(views, k) <= leaf < Reached(views, n) ==>
              LeafEntity(views[k], leaf, |WalkCalls(views, k)|, WalkLeaves(address, views, n)[leaf])
  {
    hide Padded, LeafEntity, WalkCalls, WalkedLeaves;
    var q, from := |WalkCalls(views, k)|, Reached(views, k);
    assert WalkLeaves(address, views, n) == WalkLeaves(address, views, k) + WalkedLeaves(address, views[k], q, from);
    forall leaf: nat | from <= leaf < Reached(views, n) ensures LeafEntity(views[k], leaf, q, WalkLeaves(address, views, n)[leaf]) {
      WalkedLeaf(address, views[k], q, from, leaf);
    }
  }

  lemma {:induction false} WalkedLeaf(address: Bytes, view: BlockView, q: nat, from: nat, leaf: nat)
    requires from <= leaf < from + Taken(from, view)
    ensures LeafEntity(view, leaf, q, WalkedLeaves(address, view, q, from)[leaf - from])
  {}

  lemma {:induction false} LeafOfBlock(address: Bytes, views: seq<BlockView>, n: nat, k: nat, leaf: nat)
    requires k < n <= |views| && Reached(views, k) <= leaf < Reached(views, k + 1)
    ensures leaf < Reached(views, n)
    ensures LeafEntity(views[k], leaf, Growths(views, k), WalkLeaves(address, views, n)[leaf])
    decreases n
  {
    hide WalkLeaves, WalkCalls, LeafEntity, Reached;
    LeavesNext(address, views, n - 1, n);
    EntryCount(views, k);
    if k < n - 1 {
      LeafOfBlock(address, views, n - 1, k, leaf);
    }
  }

  /** Every leaf indexed in block `k` is filed with its value there. */
  lemma {:induction false} LeafEntities(address: Bytes, views: seq<BlockView>, n: nat, k: nat, leaf: nat)
    requires k < n <= |views| && Grows(views) && Reached(views, k) <= leaf < Reached(views, k + 1)
    ensures var m := RunBlocks(address, views, n).commitments;
            && Padded(leaf) in m && LeafEntity(views[k], leaf, Growths(views, k), m[Padded(leaf)])
            && forall id :: id in m ==> IsPosition(id, Reached(views, n))
  {
    hide RunBlocks, WalkCalls, WalkLeaves, LeafEntity, Reached, Grows, Padded;
    IndexIsWalked(address, views, n);
    LeafOfBlock(address, views, n, k, leaf);
    assert WalkLeaves(address, views, n)[leaf] == RunBlocks(address, views, n).commitments[Padded(leaf)];
  }
}
