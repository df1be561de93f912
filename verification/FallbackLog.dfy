/** What the fallback index holds after any run of blocks. */
module FallbackLog {
  import opened Basics
  import opened ByteCodec
  import opened Text
  import opened BondMapping
  import opened BondLog
  import opened FallbackMapping

  /** One contract seen block after block: the array only grows, and is empty until `bondId()` answers. */
  ghost predicate Grows(views: seq<BlockView>) {
    && (forall i, j :: 0 <= i <= j < |views| ==> views[i].leaves <= views[j].leaves)
    && (forall i :: 0 <= i < |views| && views[i].bondId.None? ==> views[i].leaves == [])
  }

  /** How many leaves the index has after `n` blocks. */
  function Reached(views: seq<BlockView>, n: nat): nat
    requires n <= |views|
  {
    if n == 0 then 0 else Reached(views, n - 1) + Taken(Reached(views, n - 1), views[n - 1])
  }

  // ----- the two logs -----------------------------------------------------------------

  function WalkedLeaves(address: Bytes, view: BlockView, k: nat, from: nat): (r: seq<Commitment>)
    ensures |r| == Taken(from, view)
  {
    var added := NewLeaves(from, view);
    seq(|added|, i requires 0 <= i < |added| =>
      CommitmentOf(BlockCtx(address, view), UNKNOWN, Padded(k), from + i, added[i]))
  }

  function WalkCalls(views: seq<BlockView>, n: nat): seq<LifecycleCall>
    requires n <= |views|
  {
    if n == 0 then []
    else
      var before, from, view := WalkCalls(views, n - 1), Reached(views, n - 1), views[n - 1];
      if Taken(from, view) == 0 then before else before + [SyntheticCall(view, |before|, from + Taken(from, view))]
  }

  function WalkLeaves(address: Bytes, views: seq<BlockView>, n: nat): (r: seq<Commitment>)
    requires n <= |views|
    ensures |r| == Reached(views, n)
  {
    if n == 0 then []
    else WalkLeaves(address, views, n - 1)
         + WalkedLeaves(address, views[n - 1], |WalkCalls(views, n - 1)|, Reached(views, n - 1))
  }

  ghost predicate WalkLogged(address: Bytes, views: seq<BlockView>, n: nat, s: BondStore)
    requires n <= |views|
  {
    && (s.bond.None? ==> Reached(views, n) == 0 && WalkCalls(views, n) == [])
    && (s.bond.Some? ==> s.bond.value.leafCount == Reached(views, n) && s.bond.value.callCount == |WalkCalls(views, n)|)
    && IsTable(s.commitments, WalkLeaves(address, views, n))
    && IsTable(s.calls, WalkCalls(views, n))
  }

  lemma {:induction false} IndexIsWalked(address: Bytes, views: seq<BlockView>, n: nat)
    requires n <= |views| && Grows(views)
    ensures WalkLogged(address, views, n, RunBlocks(address, views, n))
  {
    if n > 0 {
      IndexIsWalked(address, views, n - 1);
      WalkedNext(address, views, n - 1, RunBlocks(address, views, n - 1));
    }
  }

  lemma {:induction false} WalkedNext(address: Bytes, views: seq<BlockView>, k: nat, s: BondStore)
    requires k < |views| && Grows(views) && WalkLogged(address, views, k, s)
    ensures WalkLogged(address, views, k + 1, Walked(address, s, views[k]))
  {
    var view := views[k];
    if s.bond.None? && view.bondId.None? {
      assert view.leaves == [];
      NothingWalked(address, views, k);
    } else {
      var bond := Opened(address, s, if view.bondId.Some? then view.bondId.value else ZERO32);
      assert bond.leafCount == Reached(views, k) && bond.callCount == |WalkCalls(views, k)|;
      WalkedFromNext(address, views, k, s, bond);
    }
  }

  lemma NothingWalked(address: Bytes, views: seq<BlockView>, k: nat)
    requires k < |views| && Taken(Reached(views, k), views[k]) == 0
    ensures Reached(views, k + 1) == Reached(views, k) && WalkCalls(views, k + 1) == WalkCalls(views, k)
    ensures WalkLeaves(address, views, k + 1) == WalkLeaves(address, views, k)
  {}

  lemma SomethingWalked(views: seq<BlockView>, k: nat)
    requires k < |views| && Taken(Reached(views, k), views[k]) > 0
    ensures Reached(views, k + 1) == Reached(views, k) + Taken(Reached(views, k), views[k])
    ensures WalkCalls(views, k + 1) ==
              WalkCalls(views, k) + [SyntheticCall(views[k], |WalkCalls(views, k)|, Reached(views, k + 1))]
  {}

  lemma {:induction false} WalkedFromNext(address: Bytes, views: seq<BlockView>, k: nat, s: BondStore, bond: Bond)
    requires k < |views| && bond.leafCount == Reached(views, k) && bond.callCount == |WalkCalls(views, k)|
    requires IsTable(s.commitments, WalkLeaves(address, views, k)) && IsTable(s.calls, WalkCalls(views, k))
    ensures WalkLogged(address, views, k + 1, WalkedFrom(address, s, bond, views[k]))
  {
    hide IsTable, Padded, Taken;
    if Taken(bond.leafCount, views[k]) == 0 {
      NothingWalked(address, views, k);
    } else {
      SomethingWalked(views, k);
      LeavesWalked(address, views, k, s.commitments);
      TableGrows(s.calls, WalkCalls(views, k), SyntheticCall(views[k], bond.callCount, Reached(views, k + 1)));
    }
  }

  lemma {:induction false} LeavesWalked(address: Bytes, views: seq<BlockView>, k: nat, m: map<string, Commitment>)
    requires k < |views| && IsTable(m, WalkLeaves(address, views, k))
    ensures var entries := LeafEntries(BlockCtx(address, views[k]), UNKNOWN, Padded(|WalkCalls(views, k)|),
                                       Reached(views, k), NewLeaves(Reached(views, k), views[k]));
            IsTable(Saved(m, entries), WalkLeaves(address, views, k + 1))
  {
    var xs, id := WalkLeaves(address, views, k), |WalkCalls(views, k)|;
    var ys := WalkedLeaves(address, views[k], id, |xs|);
    var entries := LeafEntries(BlockCtx(address, views[k]), UNKNOWN, Padded(id), |xs|, NewLeaves(|xs|, views[k]));
    forall i | 0 <= i < |ys| ensures entries[i] == (Padded(|xs| + i), ys[i]) {}
    TableSaves(m, xs, entries, ys, |ys|);
    assert ys[..|ys|] == ys;
  }
}
