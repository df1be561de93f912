/** What the index holds after any history of calls: two logs, filed under zero-padded positions. */
module BondLog {
  import opened Basics
  import opened ByteCodec
  import opened Text
  import opened BondMapping

  /** The table `m` is the list `xs`: entry `i` under the id of `i`, and nothing else. */
  ghost predicate IsTable<T>(m: map<string, T>, xs: seq<T>) {
    && (forall i: nat {:trigger xs[i]} :: i < |xs| ==> Padded(i) in m && m[Padded(i)] == xs[i])
    && (forall k :: k in m ==> IsPosition(k, |xs|))
  }

  ghost predicate IsPosition(k: string, n: nat) {
    exists i: nat :: i < n && k == Padded(i)
  }

  lemma {:induction false} TableGrows<T>(m: map<string, T>, xs: seq<T>, x: T)
    requires IsTable(m, xs)
    ensures IsTable(m[Padded(|xs|) := x], xs + [x])
  {
    hide Padded;
    var m', xs' := m[Padded(|xs|) := x], xs + [x];
    forall i: nat | i < |xs'| ensures Padded(i) in m' && m'[Padded(i)] == xs'[i] {
      if i < |xs| {
        assert xs'[i] == xs[i];
        if Padded(i) == Padded(|xs|) { PaddedInjective(i, |xs|); }
      }
    }
    forall k | k in m' ensures IsPosition(k, |xs'|) {
      if k in m {
        var i: nat :| i < |xs| && k == Padded(i);
        assert i < |xs'|;
      } else {
        assert |xs| < |xs'| && k == Padded(|xs|);
      }
    }
  }

  lemma {:induction false} RowSaves<T>(m: map<string, T>, xs: seq<T>, x: T, id: string, xs': seq<T>)
    requires IsTable(m, xs) && id == Padded(|xs|) && xs' == xs + [x]
    ensures IsTable(m[id := x], xs')
  {
    TableGrows(m, xs, x);
  }

  /** The entries that file `ys` from position `first` on. */
  ghost predicate FilesFrom<T>(entries: seq<(string, T)>, first: nat, ys: seq<T>) {
    && |entries| == |ys|
    && forall i {:trigger entries[i]} :: 0 <= i < |ys| ==> entries[i] == (Padded(first + i), ys[i])
  }

  /** Saving the first `n` entries extends the table by the first `n` of `ys`. */
  ghost predicate TableAfter<T>(m: map<string, T>, xs: seq<T>, entries: seq<(string, T)>, ys: seq<T>, n: nat)
    requires n <= |entries| == |ys|
  {
    IsTable(SavedTo(m, entries, n), xs + ys[..n])
  }

  lemma {:induction false} TableSaves<T>(m: map<string, T>, xs: seq<T>, entries: seq<(string, T)>, ys: seq<T>, n: nat)
    requires IsTable(m, xs) && FilesFrom(entries, |xs|, ys) && n <= |ys|
    ensures TableAfter(m, xs, entries, ys, n)
  {
    if n == 0 {
      assert xs + ys[..0] == xs;
    } else {
      TableSaves(m, xs, entries, ys, n - 1);
      EntrySaves(m, xs, entries, ys, n - 1);
    }
  }

  lemma {:induction false} EntrySaves<T>(m: map<string, T>, xs: seq<T>, entries: seq<(string, T)>, ys: seq<T>, k: nat)
    requires FilesFrom(entries, |xs|, ys) && k < |ys| && TableAfter(m, xs, entries, ys, k)
    ensures TableAfter(m, xs, entries, ys, k + 1)
  {
    assert entries[k] == (Padded(|xs| + k), ys[k]);
    TableGrows(SavedTo(m, entries, k), xs + ys[..k], ys[k]);
    assert xs + ys[..k + 1] == xs + ys[..k] + [ys[k]];
  }

  // ----- the logs ----------------------------------------------------------------

  /** The leaves call number `k` files, from leaf `first` on. */
  function CallLeaves(call: BondCall, k: nat, first: nat): (r: seq<Commitment>)
    ensures |r| == |Appends(call)|
  {
    seq(|Appends(call)|, i requires 0 <= i < |Appends(call)| =>
      CommitmentOf(call.ctx, Kind(call), Padded(k), first + i, Appends(call)[i]))
  }

  lemma CallLeaf(call: BondCall, k: nat, first: nat, i: nat)
    requires i < |Appends(call)|
    ensures CallLeaves(call, k, first)[i] == CommitmentOf(call.ctx, Kind(call), Padded(k), first + i, Appends(call)[i])
  {}

  function LeafLog(calls: seq<BondCall>, n: nat): seq<Commitment>
    requires n <= |calls|
  {
    if n == 0 then [] else LeafLog(calls, n - 1) + CallLeaves(calls[n - 1], n - 1, |LeafLog(calls, n - 1)|)
  }

  function CallLog(env: Env, calls: seq<BondCall>, n: nat): (r: seq<LifecycleCall>)
    requires n <= |calls|
    ensures |r| == n
  {
    if n == 0 then []
    else CallLog(env, calls, n - 1)
         + [CallOf(env, calls[n - 1].ctx, Kind(calls[n - 1]), Proof(calls[n - 1]), n - 1, |LeafLog(calls, n)|)]
  }

  function SpentLog(calls: seq<BondCall>, n: nat): seq<Digest>
    requires n <= |calls|
  {
    if n == 0 then [] else SpentLog(calls, n - 1) + Spends(calls[n - 1])
  }

  /** The bond's totals are the lengths of the logs, and its identity is read at the first call. */
  ghost predicate Totals(env: Env, calls: seq<BondCall>, n: nat, s: BondStore)
    requires n <= |calls|
  {
    if n == 0 then s.bond == None
    else
      && s.bond.Some?
      && s.bond.value.address == calls[0].ctx.to && s.bond.value.bondId == BondIdOf(env)
      && s.bond.value.leafCount == |LeafLog(calls, n)|
      && s.bond.value.nullifierCount == |SpentLog(calls, n)|
      && s.bond.value.callCount == n
  }

  ghost predicate Logged(env: Env, calls: seq<BondCall>, n: nat, s: BondStore)
    requires n <= |calls|
  {
    && Totals(env, calls, n, s)
    && IsTable(s.commitments, LeafLog(calls, n))
    && IsTable(s.calls, CallLog(env, calls, n))
  }

  ghost predicate LoggedAfter(env: Env, calls: seq<BondCall>, n: nat)
    requires n <= |calls|
  {
    Logged(env, calls, n, StoreAfter(env, calls, n))
  }

  /** After every history the two tables are exactly the logs, in execution order, and the totals their lengths. */
  lemma {:induction false} IndexIsLogged(env: Env, calls: seq<BondCall>, n: nat)
    requires n <= |calls|
    ensures LoggedAfter(env, calls, n)
  {
    hide LoggedAfter;
    if n == 0 {
      NothingLogged(env, calls);
    } else {
      IndexIsLogged(env, calls, n - 1);
      LoggedNext(env, calls, n - 1);
    }
  }

  lemma NothingLogged(env: Env, calls: seq<BondCall>)
    ensures LoggedAfter(env, calls, 0)
  {}

  lemma {:induction false} LoggedNext(env: Env, calls: seq<BondCall>, k: nat)
    requires k < |calls| && LoggedAfter(env, calls, k)
    ensures LoggedAfter(env, calls, k + 1)
  {
    LogsFiled(env, calls, k, StoreAfter(env, calls, k));
  }

  lemma {:induction false} LogsFiled(env: Env, calls: seq<BondCall>, k: nat, s: BondStore)
    requires k < |calls| && Logged(env, calls, k, s)
    ensures Logged(env, calls, k + 1, Handled(env, s, calls[k]))
  {
    hide IsTable, Handled;
    LoadedIs(env, calls, k, s);
    TotalsNext(env, calls, k, s);
    HandledFields(env, s, calls[k], Loaded(env, s, calls[k].ctx));
    LeavesFiled(calls, k, s.commitments);
    CallLogNext(env, calls, k);
    LogStep(calls, k);
    RowSaves(s.calls, CallLog(env, calls, k), CallLog(env, calls, k + 1)[k], Padded(k), CallLog(env, calls, k + 1));
  }

  lemma LogStep(calls: seq<BondCall>, k: nat)
    requires k < |calls|
    ensures |LeafLog(calls, k + 1)| == |LeafLog(calls, k)| + |Appends(calls[k])|
    ensures |SpentLog(calls, k + 1)| == |SpentLog(calls, k)| + |Spends(calls[k])|
  {}

  lemma CallLogNext(env: Env, calls: seq<BondCall>, k: nat)
    requires k < |calls|
    ensures CallLog(env, calls, k + 1) ==
              CallLog(env, calls, k) + [CallOf(env, calls[k].ctx, Kind(calls[k]), Proof(calls[k]), k, |LeafLog(calls, k + 1)|)]
  {}

  lemma LoadedIs(env: Env, calls: seq<BondCall>, k: nat, s: BondStore)
    requires k < |calls| && Totals(env, calls, k, s)
    ensures var bond := Loaded(env, s, calls[k].ctx);
            && bond.address == calls[0].ctx.to && bond.bondId == BondIdOf(env) && bond.callCount == k
            && bond.leafCount == |LeafLog(calls, k)| && bond.nullifierCount == |SpentLog(calls, k)|
  {}

  lemma HandledFields(env: Env, s: BondStore, call: BondCall, bond: Bond)
    requires bond == Loaded(env, s, call.ctx)
    ensures var s', id, leaves, spent := Handled(env, s, call), Padded(bond.callCount), Appends(call), Spends(call);
            && s'.bond == Some(Bond(bond.address, bond.bondId, bond.leafCount + |leaves|, bond.nullifierCount + |spent|,
                                    bond.callCount + 1))
            && s'.commitments == Saved(s.commitments, LeafEntries(call.ctx, Kind(call), id, bond.leafCount, leaves))
            && s'.nullifiers == Saved(s.nullifiers, SpentEntries(call.ctx, Kind(call), id, spent))
            && s'.roots == Saved(s.roots, ClaimEntries(call.ctx, Kind(call), id, Claims(call)))
            && s'.calls == s.calls[id := CallOf(env, call.ctx, Kind(call), Proof(call), bond.callCount,
                                                bond.leafCount + |leaves|)]
  {}

  lemma {:induction false} TotalsNext(env: Env, calls: seq<BondCall>, k: nat, s: BondStore)
    requires k < |calls| && Totals(env, calls, k, s)
    ensures Totals(env, calls, k + 1, Handled(env, s, calls[k]))
  {
    LoadedIs(env, calls, k, s);
    HandledFields(env, s, calls[k], Loaded(env, s, calls[k].ctx));
    LogStep(calls, k);
  }

  lemma {:induction false} LeavesFiled(calls: seq<BondCall>, k: nat, m: map<string, Commitment>)
    requires k < |calls| && IsTable(m, LeafLog(calls, k))
    ensures IsTable(Saved(m, LeafEntries(calls[k].ctx, Kind(calls[k]), Padded(k), |LeafLog(calls, k)|, Appends(calls[k]))),
                    LeafLog(calls, k + 1))
  {
    var xs, ys := LeafLog(calls, k), CallLeaves(calls[k], k, |LeafLog(calls, k)|);
    var entries := LeafEntries(calls[k].ctx, Kind(calls[k]), Padded(k), |xs|, Appends(calls[k]));
    forall i | 0 <= i < |ys| ensures entries[i] == (Padded(|xs| + i), ys[i]) { CallLeaf(calls[k], k, |xs|, i); }
    TableSaves(m, xs, entries, ys, |ys|);
    assert ys[..|ys|] == ys;
  }

  lemma {:induction false} LeafPositions(calls: seq<BondCall>, n: nat, i: nat)
    requires n <= |calls| && i < |LeafLog(calls, n)|
    ensures LeafLog(calls, n)[i].leafIndex == i
  {
    hide LeafLog, CallLeaves;
    LeafAt(calls, n, i);
    var below := LeafLog(calls, n - 1);
    if i < |below| {
      LeafPositions(calls, n - 1, i);
    } else {
      CallLeaf(calls[n - 1], n - 1, |below|, i - |below|);
    }
  }

  lemma LeafAt(calls: seq<BondCall>, n: nat, i: nat)
    requires n <= |calls| && i < |LeafLog(calls, n)|
    ensures n > 0
    ensures var below := LeafLog(calls, n - 1);
            && i - |below| < |Appends(calls[n - 1])|
            && LeafLog(calls, n)[i] ==
                 if i < |below| then below[i] else CallLeaves(calls[n - 1], n - 1, |below|)[i - |below|]
  {
    hide CallLeaves;
  }

  lemma {:induction false} LogGrows(calls: seq<BondCall>, k: nat, n: nat)
    requires k <= n <= |calls|
    ensures LeafLog(calls, k) <= LeafLog(calls, n)
    decreases n
  {
    hide LeafLog, CallLeaves;
    if k < n {
      LogGrows(calls, k, n - 1);
      LeafLogNext(calls, n - 1, n);
    }
  }

  lemma LeafLogNext(calls: seq<BondCall>, k: nat, n: nat)
    requires k + 1 == n <= |calls|
    ensures LeafLog(calls, n) == LeafLog(calls, k) + CallLeaves(calls[k], k, |LeafLog(calls, k)|)
  {}

  lemma {:induction false} CallEntry(env: Env, calls: seq<BondCall>, n: nat, i: nat)
    requires i < n <= |calls|
    ensures CallLog(env, calls, n)[i] ==
              CallOf(env, calls[i].ctx, Kind(calls[i]), Proof(calls[i]), i, |LeafLog(calls, i + 1)|)
    decreases n
  {
    if i < n - 1 { CallEntry(env, calls, n - 1, i); }
  }

  // ----- cited roots -------------------------------------------------------------------------

  /** Every root cited, with the id it is filed under, call by call. */
  function ClaimLog(calls: seq<BondCall>, n: nat): seq<(string, RootClaimed)>
    requires n <= |calls|
  {
    if n == 0 then [] else ClaimLog(calls, n - 1) + CallClaims(calls[n - 1], n - 1)
  }

  function CallClaims(call: BondCall, k: nat): (r: seq<(string, RootClaimed)>)
    ensures |r| == |Claims(call)|
  {
    ClaimEntries(call.ctx, Kind(call), Padded(k), Claims(call))
  }

  /** The table is the log: every entry under its id, none over another, and nothing else. */
  ghost predicate IsFiled<T>(m: map<string, T>, log: seq<(string, T)>) {
    && DistinctKeys(log)
    && (forall i {:trigger log[i]} :: 0 <= i < |log| ==> log[i].0 in m && m[log[i].0] == log[i].1)
    && (forall k :: k in m ==> exists i :: 0 <= i < |log| && log[i].0 == k)
  }

  ghost predicate DistinctKeys<T>(log: seq<(string, T)>) {
    forall i, j :: 0 <= i < j < |log| ==> log[i].0 != log[j].0
  }

  lemma {:induction false} SavedFiles<T>(m: map<string, T>, log: seq<(string, T)>, entries: seq<(string, T)>, n: nat)
    requires IsFiled(m, log) && DistinctKeys(log + entries) && n <= |entries|
    ensures IsFiled(SavedTo(m, entries, n), log + entries[..n])
  {
    if n == 0 {
      assert log + entries[..0] == log;
    } else {
      SavedFiles(m, log, entries, n - 1);
      FewerKeys(log + entries, log + entries[..n]);
      assert log + entries[..n] == log + entries[..n - 1] + [entries[n - 1]];
      OneFiled(SavedTo(m, entries, n - 1), log + entries[..n - 1], entries[n - 1]);
    }
  }

  lemma FewerKeys<T>(log: seq<(string, T)>, fewer: seq<(string, T)>)
    requires DistinctKeys(log) && fewer <= log
    ensures DistinctKeys(fewer)
  {}

  lemma OneFiled<T>(m: map<string, T>, log: seq<(string, T)>, e: (string, T))
    requires IsFiled(m, log) && DistinctKeys(log + [e])
    ensures IsFiled(m[e.0 := e.1], log + [e])
  {
    var m', log' := m[e.0 := e.1], log + [e];
    forall i | 0 <= i < |log'| ensures log'[i].0 in m' && m'[log'[i].0] == log'[i].1 {
      if i < |log| { assert log'[i] == log[i] && log'[|log|] == e; }
    }
    forall k | k in m' ensures exists i :: 0 <= i < |log'| && log'[i].0 == k {
      if k == e.0 {
        assert log'[|log|].0 == k;
      } else {
        var i :| 0 <= i < |log| && log[i].0 == k;
        assert log'[i].0 == k;
      }
    }
  }

  /** The first dash of a claim id ends the digits of its call. */
  lemma FirstDash(digits: string, suffix: string)
    requires AllDigits(digits)
    ensures ClaimId(digits, suffix)[|digits|] == '-'
    ensures forall i :: 0 <= i < |digits| ==> ClaimId(digits, suffix)[i] != '-'
  {
    forall i | 0 <= i < |digits| ensures ClaimId(digits, suffix)[i] != '-' { assert IsDigit(digits[i]); }
  }

  /** A claim id names its call and its suffix. */
  lemma {:induction false} ClaimIdInjective(j: nat, s: string, k: nat, t: string)
    requires ClaimId(Padded(j), s) == ClaimId(Padded(k), t)
    ensures j == k && s == t
  {
    var a, b := Padded(j), Padded(k);
    PaddedValue(j);
    PaddedValue(k);
    var id := ClaimId(a, s);
    FirstDash(a, s);
    FirstDash(b, t);
    assert id[..|a|] == a && id[..|b|] == b;
    assert id[|a| + 1..] == s && id[|b| + 1..] == t;
    PaddedInjective(j, k);
  }

  lemma ClaimKey(call: BondCall, k: nat, i: nat)
    requires i < |Claims(call)|
    ensures CallClaims(call, k)[i].0 == ClaimId(Padded(k), Claims(call)[i].suffix)
  {}

  lemma ClaimAt(calls: seq<BondCall>, k: nat, n: nat, i: nat)
    requires k + 1 == n <= |calls| && i < |ClaimLog(calls, n)|
    ensures var below := ClaimLog(calls, k);
            if i < |below| then ClaimLog(calls, n)[i] == below[i]
            else
              && i - |below| < |Claims(calls[k])|
              && ClaimLog(calls, n)[i].0 == ClaimId(Padded(k), Claims(calls[k])[i - |below|].suffix)
  {
    hide Padded, ClaimId, CallClaims, Claims;
    var below := ClaimLog(calls, k);
    if i >= |below| { ClaimKey(calls[k], k, i - |below|); }
  }

  lemma {:induction false} ClaimFromCall(calls: seq<BondCall>, n: nat, i: nat) returns (k: nat, s: string)
    requires n <= |calls| && i < |ClaimLog(calls, n)|
    ensures k < n && ClaimLog(calls, n)[i].0 == ClaimId(Padded(k), s)
  {
    hide CallClaims, Claims, Padded, ClaimId;
    var below := ClaimLog(calls, n - 1);
    ClaimAt(calls, n - 1, n, i);
    if i < |below| {
      k, s := ClaimFromCall(calls, n - 1, i);
    } else {
      k, s := n - 1, Claims(calls[n - 1])[i - |below|].suffix;
    }
  }

  lemma SuffixesDiffer(call: BondCall, i: nat, j: nat)
    requires i < j < |Claims(call)|
    ensures Claims(call)[i].suffix != Claims(call)[j].suffix
  {
    assert ("root" + "A")[4] == 'A' && ("root" + "B")[4] == 'B';
  }

  lemma {:induction false} ClaimKeysDistinct(calls: seq<BondCall>, n: nat)
    requires n <= |calls|
    ensures DistinctKeys(ClaimLog(calls, n))
  {
    if n > 0 {
      ClaimKeysDistinct(calls, n - 1);
      var below, log := ClaimLog(calls, n - 1), ClaimLog(calls, n);
      forall i, j | 0 <= i < j < |log| ensures log[i].0 != log[j].0 {
        if j < |below| { assert log[i] == below[i] && log[j] == below[j]; } else { LateKeyDiffers(calls, n, i, j); }
      }
    }
  }

  lemma {:induction false} LateKeyDiffers(calls: seq<BondCall>, n: nat, i: nat, j: nat)
    requires 0 < n <= |calls| && i < j < |ClaimLog(calls, n)| && |ClaimLog(calls, n - 1)| <= j
    ensures ClaimLog(calls, n)[i].0 != ClaimLog(calls, n)[j].0
  {
    hide CallClaims, Claims, Padded, ClaimId, ClaimLog;
    var below, claims := ClaimLog(calls, n - 1), Claims(calls[n - 1]);
    ClaimAt(calls, n - 1, n, i);
    ClaimAt(calls, n - 1, n, j);
    var t := claims[j - |below|].suffix;
    if i < |below| {
      var k, s := ClaimFromCall(calls, n - 1, i);
      if ClaimId(Padded(k), s) == ClaimId(Padded(n - 1), t) { ClaimIdInjective(k, s, n - 1, t); }
    } else {
      SuffixesDiffer(calls[n - 1], i - |below|, j - |below|);
      var s := claims[i - |below|].suffix;
      if ClaimId(Padded(n - 1), s) == ClaimId(Padded(n - 1), t) { ClaimIdInjective(n - 1, s, n - 1, t); }
    }
  }

  /** After every history the table of cited roots is exactly their log. */
  lemma {:induction false} ClaimsAreLogged(env: Env, calls: seq<BondCall>, n: nat)
    requires n <= |calls|
    ensures IsFiled(StoreAfter(env, calls, n).roots, ClaimLog(calls, n))
  {
    hide IsFiled, StoreAfter, ClaimLog;
    if n == 0 {
      NothingClaimed(env, calls);
    } else {
      ClaimsAreLogged(env, calls, n - 1);
      CallFilesClaims(env, calls, n - 1);
    }
  }

  lemma NothingClaimed(env: Env, calls: seq<BondCall>)
    ensures IsFiled(StoreAfter(env, calls, 0).roots, ClaimLog(calls, 0))
  {}

  lemma {:induction false} CallFilesClaims(env: Env, calls: seq<BondCall>, k: nat)
    requires k < |calls| && IsFiled(StoreAfter(env, calls, k).roots, ClaimLog(calls, k))
    ensures IsFiled(StoreAfter(env, calls, k + 1).roots, ClaimLog(calls, k + 1))
  {
    hide IsFiled, DistinctKeys, StoreAfter, CallClaims;
    var entries := CallClaims(calls[k], k);
    CallSavesClaims(env, calls, k);
    ClaimKeysDistinct(calls, k + 1);
    SavedFiles(StoreAfter(env, calls, k).roots, ClaimLog(calls, k), entries, |entries|);
    assert entries[..|entries|] == entries;
  }

  lemma {:induction false} CallSavesClaims(env: Env, calls: seq<BondCall>, k: nat)
    requires k < |calls|
    ensures StoreAfter(env, calls, k + 1).roots == Saved(StoreAfter(env, calls, k).roots, CallClaims(calls[k], k))
  {
    hide Handled, IsTable, Loaded, Padded, Saved;
    var s := StoreAfter(env, calls, k);
    IndexIsLogged(env, calls, k);
    LoadedIs(env, calls, k, s);
    HandledFields(env, s, calls[k], Loaded(env, s, calls[k].ctx));
  }
}
