/** The disclosed records and the manifest that accounts for them: replay/src/records.rs. */
module Records {
  import opened Basics
  import opened FieldHex
  import opened ServedLog

  /** The fields the commitment is computed from. */
  datatype DisclosedRecord = DisclosedRecord(value: nat, salt: nat, owner: string, assetId: nat, maturityDate: nat)

  /** The note hash, kept abstract. */
  type NoteHash = (nat, nat, Fr, nat, nat) -> Fr

  function RecomputeCommitment(note: NoteHash, r: DisclosedRecord): Result<string, FieldError> {
    match FrFromHex(r.owner)
    case Ok(owner) => Ok(FrToHex(note(r.value, r.salt, owner, r.assetId, r.maturityDate)))
    case Err(e) => Err(e)
  }

  datatype AccountingClass = Disclosed | BurnOutputZero

  datatype ManifestEntry = ManifestEntry(leafIndex: nat, kind: AccountingClass, recordFile: Option<string>, commitment: string)

  datatype Manifest = Manifest(entries: seq<ManifestEntry>, leafCountsAfterEachCall: seq<nat>)

  datatype ManifestError = ListedTwice(leaf: nat) | NoRecordFile(leaf: nat) | UnexpectedRecordFile(leaf: nat)
                         | NotContiguousFromZero(found: nat, position: nat)

  function EntryLeaf(): ManifestEntry -> nat { (e: ManifestEntry) => e.leafIndex }

  /** The entries list the leaves 0..n-1, each once, and exactly the disclosed ones name a record file. */
  ghost predicate Consistent(entries: seq<ManifestEntry>) {
    && (forall e :: e in entries ==> FileFits(e))
    && NoDup(Map(EntryLeaf(), entries))
    && (forall e :: e in entries ==> e.leafIndex < |entries|)
  }

  predicate FileFits(e: ManifestEntry) { e.kind == Disclosed <==> e.recordFile.Some? }

  /** After `n` entries: their leaves, all different. */
  ghost predicate SeenTo(entries: seq<ManifestEntry>, n: nat, seen: set<nat>) {
    && n <= |entries| && |seen| == n
    && seen == Elements(Map(EntryLeaf(), entries[..n]))
    && (forall k {:trigger entries[k]} :: 0 <= k < n ==> FileFits(entries[k]))
  }

  method CheckInternalConsistency(entries: seq<ManifestEntry>) returns (r: Result<(), ManifestError>)
    ensures r.Ok? <==> Consistent(entries)
  {
    var listed := CheckEntries(entries);
    if listed.Err? { return Err(listed.error); }
    r := CheckContiguous(entries, listed.value);
  }

  method CheckEntries(entries: seq<ManifestEntry>) returns (r: Result<set<nat>, ManifestError>)
    ensures r.Ok? ==> SeenTo(entries, |entries|, r.value)
    ensures r.Err? ==> !Consistent(entries)
  {
    var seen: set<nat> := {};
    for n := 0 to |entries|
      invariant SeenTo(entries, n, seen)
    {
      var e := entries[n];
      assert e in entries;
      if e.leafIndex in seen {
        SeenTwice(entries, n, seen);
        return Err(ListedTwice(e.leafIndex));
      }
      if e.kind == Disclosed && e.recordFile.None? { return Err(NoRecordFile(e.leafIndex)); }
      if e.kind == BurnOutputZero && e.recordFile.Some? { return Err(UnexpectedRecordFile(e.leafIndex)); }
      SeenNext(entries, n, seen);
      seen := seen + {e.leafIndex};
    }
    return Ok(seen);
  }

  lemma SeenNext(entries: seq<ManifestEntry>, n: nat, seen: set<nat>)
    requires SeenTo(entries, n, seen) && n < |entries| && entries[n].leafIndex !in seen && FileFits(entries[n])
    ensures SeenTo(entries, n + 1, seen + {entries[n].leafIndex})
  {
    assert entries[..n + 1] == entries[..n] + [entries[n]];
    MapConcat(EntryLeaf(), entries[..n], [entries[n]]);
  }

  lemma SeenTwice(entries: seq<ManifestEntry>, n: nat, seen: set<nat>)
    requires SeenTo(entries, n, seen) && n < |entries| && entries[n].leafIndex in seen
    ensures !Consistent(entries)
  {
    var below, all := Map(EntryLeaf(), entries[..n]), Map(EntryLeaf(), entries);
    assert entries[n].leafIndex in below;
    var k :| 0 <= k < |below| && below[k] == entries[n].leafIndex;
    assert all[k] == all[n];
  }

  method CheckContiguous(entries: seq<ManifestEntry>, seen: set<nat>) returns (r: Result<(), ManifestError>)
    requires SeenTo(entries, |entries|, seen)
    ensures r.Ok? <==> Consistent(entries)
  {
    var keys := AscendingKeys(seen);
    SeenAll(entries, seen);
    for position := 0 to |keys|
      invariant forall k {:trigger keys[k]} :: 0 <= k < position ==> keys[k] == k
    {
      if keys[position] != position {
        HoleInManifest(entries, seen, keys, position);
        return Err(NotContiguousFromZero(keys[position], position));
      }
    }
    forall e | e in entries ensures e.leafIndex < |entries| {
      assert e.leafIndex in keys;
      var k :| 0 <= k < |keys| && keys[k] == e.leafIndex;
    }
    return Ok(());
  }

  lemma SeenAll(entries: seq<ManifestEntry>, seen: set<nat>)
    requires SeenTo(entries, |entries|, seen)
    ensures NoDup(Map(EntryLeaf(), entries)) && forall e :: e in entries ==> FileFits(e)
    ensures forall e :: e in entries ==> e.leafIndex in seen
    ensures forall s :: s in seen ==> exists e :: e in entries && e.leafIndex == s
  {
    var all := Map(EntryLeaf(), entries);
    assert entries[..|entries|] == entries;
    DistinctCount(all);
    forall e | e in entries ensures FileFits(e) && e.leafIndex in seen {
      var k :| 0 <= k < |entries| && entries[k] == e;
      assert all[k] == e.leafIndex;
    }
    forall s | s in seen ensures exists e :: e in entries && e.leafIndex == s {
      var k :| 0 <= k < |all| && all[k] == s;
      assert entries[k] in entries;
    }
  }

  lemma HoleInManifest(entries: seq<ManifestEntry>, seen: set<nat>, keys: seq<nat>, position: nat)
    requires SeenTo(entries, |entries|, seen) && KeysOf(keys, seen)
    requires position < |keys| && keys[position] != position
    ensures !Consistent(entries)
  {
    var last := |keys| - 1;
    KeysAtLeast(keys, position);
    KeysOvershoot(keys, position, last);
    assert keys[last] in keys;
    SeenAll(entries, seen);
    var e :| e in entries && e.leafIndex == keys[last];
  }

  /** In a consistent manifest every leaf below the count has exactly one entry. */
  lemma {:induction false} EntryAt(entries: seq<ManifestEntry>, leaf: nat) returns (e: ManifestEntry)
    requires Consistent(entries) && leaf < |entries|
    ensures e in entries && e.leafIndex == leaf
  {
    var all := Map(EntryLeaf(), entries);
    DistinctCount(all);
    var below := Below(|entries|);
    BelowIs(|entries|);
    forall s | s in Elements(all) ensures s in below {
      var k :| 0 <= k < |all| && all[k] == s;
      assert entries[k] in entries;
    }
    SubsetSize(Elements(all), below);
    assert leaf in Elements(all);
    var k :| 0 <= k < |all| && all[k] == leaf;
    e := entries[k];
  }

  ghost function Below(n: nat): set<nat> { if n == 0 then {} else Below(n - 1) + {n - 1} }

  lemma {:induction false} BelowIs(n: nat)
    ensures |Below(n)| == n && forall k: nat :: k in Below(n) <==> k < n
  {
    if n > 0 { BelowIs(n - 1); }
  }

  lemma OneEntryALeaf(entries: seq<ManifestEntry>, e: ManifestEntry, f: ManifestEntry)
    requires Consistent(entries) && e in entries && f in entries && e.leafIndex == f.leafIndex
    ensures e == f
  {
    var i :| 0 <= i < |entries| && entries[i] == e;
    var j :| 0 <= j < |entries| && entries[j] == f;
    assert Map(EntryLeaf(), entries)[i] == Map(EntryLeaf(), entries)[j];
  }
}
