/** Nothing posted is dropped and nothing is counted twice. */
module Conservation {
  import opened Basics
  import opened ByteCodec
  import opened AnchorIndexes
  import opened StoreInvariants

  function Positions(): Stream -> nat { (s: Stream) => s.anchorCount + s.conflictCount }

  function Duplicates(): Anchor -> nat { (a: Anchor) => a.duplicateCount }

  /** Anchors, conflicts, duplicates and malformed posts the store accounts for, over all streams. */
  ghost function Total(st: Store): nat {
    SumOver(Positions(), st.streams) + SumOver(Duplicates(), st.anchors) + |st.malformed|
  }

  /** Recording one well-formed call accounts for exactly one more. */
  lemma {:induction false} RecordCountsOne(st: Store, a: Anchor)
    requires a.duplicateCount == 0
    ensures Total(Record(st, a)) == Total(st) + 1
  {
    var st', id := Record(st, a), AnchorId(a.stream, a.seqNo);
    var repeat := id in st.anchors && st.anchors[id].envelopeDigest == a.envelopeDigest;
    assert SumOver(Positions(), st'.streams) == SumOver(Positions(), st.streams) + (if repeat then 0 else 1) by {
      SumUpdate(Positions(), st.streams, a.stream, st'.streams[a.stream]);
    }
    assert SumOver(Duplicates(), st'.anchors) == SumOver(Duplicates(), st.anchors) + (if repeat then 1 else 0) by {
      if id !in st.anchors || repeat { SumUpdate(Duplicates(), st.anchors, id, st'.anchors[id]); }
    }
  }

  ghost predicate DistinctIds(posts: seq<Post>, n: nat)
    requires n <= |posts|
  {
    forall i, j {:trigger UndecodableAt(posts, i), UndecodableAt(posts, j)} ::
      0 <= i < j < n && UndecodableAt(posts, i) && UndecodableAt(posts, j) ==> posts[i].id != posts[j].id
  }

  ghost predicate UndecodableAt(posts: seq<Post>, i: nat)
    requires i < |posts|
  {
    posts[i].Undecodable?
  }

  /** Some undecodable post among the first `n` has this id. */
  ghost predicate Posted(posts: seq<Post>, n: nat, id: string)
    requires n <= |posts|
  {
    exists i {:trigger UndecodableAt(posts, i)} :: 0 <= i < n && UndecodableAt(posts, i) && id == posts[i].id
  }

  lemma {:induction false} MalformedKeys(posts: seq<Post>, n: nat, id: string)
    requires n <= |posts|
    ensures id in Run(posts, n).malformed <==> Posted(posts, n, id)
  {
    if n > 0 {
      MalformedKeys(posts, n - 1, id);
      assert UndecodableAt(posts, n - 1) <==> posts[n - 1].Undecodable?;
    }
  }

  lemma {:induction false} ApplyCounts(st: Store, p: Post)
    requires p.Position? ==> p.anchor.duplicateCount == 0
    requires !p.Skipped?
    ensures Total(Apply(st, p)) == Total(st) + if p.Undecodable? && p.id in st.malformed then 0 else 1
  {
    match p {
      case Position(a) => RecordCountsOne(st, a);
      case Undecodable(id, entity) =>
        var st' := Apply(st, p);
        assert st'.malformed.Keys == st.malformed.Keys + {id};
        assert |st'.malformed| == |st'.malformed.Keys| && |st.malformed| == |st.malformed.Keys|;
    }
  }

  lemma {:induction false} RunCounts(posts: seq<Post>, k: nat, n: nat)
    requires k + 1 == n <= |posts| && Fresh(posts)
    ensures Total(Run(posts, n)) ==
              Total(Run(posts, k)) + if posts[k].Undecodable? && Posted(posts, k, posts[k].id) then 0 else 1
  {
    hide Total, Record, Posted;
    ApplyCounts(Run(posts, k), posts[k]);
    if posts[k].Undecodable? { MalformedKeys(posts, k, posts[k].id); }
  }

  ghost predicate Fresh(posts: seq<Post>) {
    forall i :: 0 <= i < |posts| ==> !posts[i].Skipped? && (posts[i].Position? ==> posts[i].anchor.duplicateCount == 0)
  }

  lemma DistinctIdsNext(posts: seq<Post>, k: nat, n: nat)
    requires k + 1 == n <= |posts|
    ensures DistinctIds(posts, n) <==>
              DistinctIds(posts, k) && !(posts[k].Undecodable? && Posted(posts, k, posts[k].id))
  {
    assert UndecodableAt(posts, k) <==> posts[k].Undecodable?;
  }

  /** Everything the tables hold: anchors with their repetitions, conflicts, malformed posts. */
  ghost function Entities(st: Store): nat {
    |st.anchors| + SumOver(Duplicates(), st.anchors) + |st.conflicts| + |st.malformed|
  }

  lemma NothingYet(posts: seq<Post>)
    ensures Total(Run(posts, 0)) == 0 && Entities(Run(posts, 0)) == 0 && DistinctIds(posts, 0)
  {}

  lemma {:induction false} PostsAreCounted(posts: seq<Post>, n: nat)
    requires n <= |posts| && Fresh(posts)
    ensures Total(Run(posts, n)) <= n
    ensures Total(Run(posts, n)) == n <==> DistinctIds(posts, n)
  {
    hide Run, Posted, Total, DistinctIds, Fresh;
    if n == 0 {
      NothingYet(posts);
    } else {
      PostsAreCounted(posts, n - 1);
      RunCounts(posts, n - 1, n);
      DistinctIdsNext(posts, n - 1, n);
    }
  }

  lemma {:induction false} HonestReadsAreFresh(keccak: Hash, calls: seq<Call>)
    ensures Fresh(Posts(keccak, calls, Honest))
  {}

  // ----- conflict entities ------------------------------------------------------------------

  /** Post `i` is another envelope at a position already taken. */
  ghost predicate Competes(posts: seq<Post>, i: nat)
    requires i < |posts|
  {
    posts[i].Position? && CompetesIn(Run(posts, i), posts[i].anchor)
  }

  ghost predicate CompetesIn(st: Store, a: Anchor) {
    var id := AnchorId(a.stream, a.seqNo);
    id in st.anchors && st.anchors[id].envelopeDigest != a.envelopeDigest
  }

  function ConflictKey(p: Post): string {
    if p.Position? then ConflictId(p.anchor.stream, p.anchor.seqNo, p.anchor.txHash) else ""
  }

  /** Some competing post among the first `n` is filed under this id. */
  ghost predicate Contested(posts: seq<Post>, n: nat, id: string)
    requires n <= |posts|
  {
    exists i {:trigger Competes(posts, i)} :: 0 <= i < n && Competes(posts, i) && ConflictKey(posts[i]) == id
  }

  lemma ContestedNext(posts: seq<Post>, k: nat, n: nat, id: string)
    requires k + 1 == n <= |posts|
    ensures Contested(posts, n, id) <==> Contested(posts, k, id) || (Competes(posts, k) && ConflictKey(posts[k]) == id)
  {}

  lemma {:induction false} ConflictKeys(posts: seq<Post>, n: nat, id: string)
    requires n <= |posts|
    ensures id in Run(posts, n).conflicts <==> Contested(posts, n, id)
  {
    if n > 0 {
      hide Record, CompetesIn, ConflictKey;
      ConflictKeys(posts, n - 1, id);
      ConflictFiled(Run(posts, n - 1), posts[n - 1], id);
      ContestedNext(posts, n - 1, n, id);
    }
  }

  lemma ConflictFiled(st: Store, p: Post, id: string)
    ensures id in Apply(st, p).conflicts <==>
              id in st.conflicts || (p.Position? && CompetesIn(st, p.anchor) && ConflictKey(p) == id)
  {}

  /** No two competing posts among the first `n` share position and transaction. */
  ghost predicate DistinctConflicts(posts: seq<Post>, n: nat)
    requires n <= |posts|
  {
    forall i, j {:trigger Competes(posts, i), Competes(posts, j)} ::
      0 <= i < j < n && Competes(posts, i) && Competes(posts, j) ==> ConflictKey(posts[i]) != ConflictKey(posts[j])
  }

  /** The ids stand for position and transaction. */
  lemma {:induction false} ConflictKeyExactly(p: Post, q: Post)
    requires p.Position? && q.Position? && |p.anchor.stream| == |q.anchor.stream|
    ensures ConflictKey(p) == ConflictKey(q) <==>
              && p.anchor.stream == q.anchor.stream && p.anchor.seqNo == q.anchor.seqNo
              && p.anchor.txHash == q.anchor.txHash
  {
    var a, b := p.anchor, q.anchor;
    if ConflictKey(p) == ConflictKey(q) { ConflictIdInjective(a.stream, a.seqNo, a.txHash, b.stream, b.seqNo, b.txHash); }
  }

  // ----- entities and calls -----------------------------------------------------------------------

  /** Post `i` is filed over an entity that was there: a malformed post or a conflict under a used id. */
  ghost predicate Overwrites(posts: seq<Post>, i: nat)
    requires i < |posts|
  {
    || (posts[i].Undecodable? && Posted(posts, i, posts[i].id))
    || (Competes(posts, i) && Contested(posts, i, ConflictKey(posts[i])))
  }

  lemma {:induction false} FirstFilesOne(st: Store, a: Anchor)
    requires a.duplicateCount == 0 && AnchorId(a.stream, a.seqNo) !in st.anchors
    ensures Entities(First(st, a)) == Entities(st) + 1
  {
    var st', id := First(st, a), AnchorId(a.stream, a.seqNo);
    SumUpdate(Duplicates(), st.anchors, id, a);
    assert st'.anchors.Keys == st.anchors.Keys + {id};
    SizesAreKeys(st);
    SizesAreKeys(st');
  }

  lemma {:induction false} RepeatFilesOne(st: Store, a: Anchor)
    requires AnchorId(a.stream, a.seqNo) in st.anchors
    ensures Entities(Repeat(st, a)) == Entities(st) + 1
  {
    var st', id := Repeat(st, a), AnchorId(a.stream, a.seqNo);
    SumUpdate(Duplicates(), st.anchors, id, st'.anchors[id]);
    assert st'.anchors.Keys == st.anchors.Keys;
    SizesAreKeys(st);
    SizesAreKeys(st');
  }

  lemma {:induction false} CompeteFilesOne(st: Store, a: Anchor)
    ensures Entities(Compete(st, a)) ==
              Entities(st) + if ConflictId(a.stream, a.seqNo, a.txHash) in st.conflicts then 0 else 1
  {
    var st', key := Compete(st, a), ConflictId(a.stream, a.seqNo, a.txHash);
    assert st'.conflicts.Keys == st.conflicts.Keys + {key};
    SizesAreKeys(st);
    SizesAreKeys(st');
  }

  lemma {:induction false} RecordFilesOne(st: Store, a: Anchor)
    requires a.duplicateCount == 0
    ensures Entities(Record(st, a)) ==
              Entities(st) + if CompetesIn(st, a) && ConflictId(a.stream, a.seqNo, a.txHash) in st.conflicts then 0 else 1
  {
    if AnchorId(a.stream, a.seqNo) !in st.anchors {
      FirstFilesOne(st, a);
    } else if CompetesIn(st, a) {
      CompeteFilesOne(st, a);
    } else {
      RepeatFilesOne(st, a);
    }
  }

  lemma SizesAreKeys(st: Store)
    ensures |st.anchors| == |st.anchors.Keys| && |st.conflicts| == |st.conflicts.Keys|
    ensures |st.malformed| == |st.malformed.Keys|
  {}

  lemma {:induction false} UndecodableFilesOne(st: Store, id: string, entity: Malformed)
    ensures Entities(Apply(st, Undecodable(id, entity))) == Entities(st) + if id in st.malformed then 0 else 1
  {
    var st' := Apply(st, Undecodable(id, entity));
    assert st'.malformed.Keys == st.malformed.Keys + {id};
    SizesAreKeys(st);
    SizesAreKeys(st');
  }

  lemma {:induction false} PostFiles(posts: seq<Post>, k: nat, n: nat)
    requires k + 1 == n <= |posts| && Fresh(posts)
    ensures Entities(Run(posts, n)) == Entities(Run(posts, k)) + if Overwrites(posts, k) then 0 else 1
  {
    hide Record, Total, SumOver, Posted, Contested, CompetesIn, ConflictId;
    var st := Run(posts, k);
    match posts[k] {
      case Position(a) =>
        RecordFilesOne(st, a);
        ConflictKeys(posts, k, ConflictKey(posts[k]));
      case Undecodable(id, entity) =>
        UndecodableFilesOne(st, id, entity);
        MalformedKeys(posts, k, id);
    }
  }

  ghost predicate NothingOverwritten(posts: seq<Post>, n: nat)
    requires n <= |posts|
  {
    forall i {:trigger Overwrites(posts, i)} :: 0 <= i < n ==> !Overwrites(posts, i)
  }

  lemma NothingOverwrittenNext(posts: seq<Post>, k: nat, n: nat)
    requires k + 1 == n <= |posts|
    ensures NothingOverwritten(posts, n) <==> NothingOverwritten(posts, k) && !Overwrites(posts, k)
  {}

  /** How many of the first `n` posts overwrite nothing. */
  ghost function KeptCount(posts: seq<Post>, n: nat): nat
    requires n <= |posts|
  {
    if n == 0 then 0 else KeptCount(posts, n - 1) + if Overwrites(posts, n - 1) then 0 else 1
  }

  lemma {:induction false} KeptAll(posts: seq<Post>, n: nat)
    requires n <= |posts|
    ensures KeptCount(posts, n) <= n
    ensures KeptCount(posts, n) == n <==> NothingOverwritten(posts, n)
  {
    hide Overwrites;
    if n > 0 {
      KeptAll(posts, n - 1);
      NothingOverwrittenNext(posts, n - 1, n);
    }
  }

  lemma {:induction false} EntitiesAreKept(posts: seq<Post>, n: nat)
    requires n <= |posts| && Fresh(posts)
    ensures Entities(Run(posts, n)) == KeptCount(posts, n)
  {
    hide Overwrites, Run, Entities, Fresh;
    if n == 0 {
      NothingYet(posts);
    } else {
      EntitiesAreKept(posts, n - 1);
      PostFiles(posts, n - 1, n);
    }
  }

  lemma {:induction false} DistinctMeansKept(posts: seq<Post>, n: nat)
    requires n <= |posts|
    ensures NothingOverwritten(posts, n) <==> DistinctIds(posts, n) && DistinctConflicts(posts, n)
  {
    forall j | 0 <= j < n ensures Overwrites(posts, j) <==> Clashes(posts, j) { OverwritesIs(posts, j); }
    if NothingOverwritten(posts, n) {
      forall i, j | 0 <= i < j < n && UndecodableAt(posts, i) && UndecodableAt(posts, j) ensures posts[i].id != posts[j].id {
        assert !Overwrites(posts, j) && !Clashes(posts, j);
      }
      forall i, j | 0 <= i < j < n && Competes(posts, i) && Competes(posts, j)
        ensures ConflictKey(posts[i]) != ConflictKey(posts[j])
      {
        assert !Overwrites(posts, j) && !Clashes(posts, j);
      }
    }
    if DistinctIds(posts, n) && DistinctConflicts(posts, n) {
      forall j | 0 <= j < n ensures !Overwrites(posts, j) { assert Overwrites(posts, j) <==> Clashes(posts, j); }
    }
  }

  /** Some earlier post was filed where post `j` is. */
  ghost predicate Clashes(posts: seq<Post>, j: nat)
    requires j < |posts|
  {
    || (exists i {:trigger UndecodableAt(posts, i)} ::
          0 <= i < j && UndecodableAt(posts, i) && UndecodableAt(posts, j) && posts[i].id == posts[j].id)
    || (exists i {:trigger Competes(posts, i)} ::
          0 <= i < j && Competes(posts, i) && Competes(posts, j) && ConflictKey(posts[i]) == ConflictKey(posts[j]))
  }

  lemma OverwritesIs(posts: seq<Post>, j: nat)
    requires j < |posts|
    ensures Overwrites(posts, j) <==> Clashes(posts, j)
  {
    assert UndecodableAt(posts, j) <==> posts[j].Undecodable?;
  }

  /** After `n` calls the tables of an honest store hold an entity or a counted repetition for each of them if and only if
      no two malformed posts share an id (the same payload twice in one transaction) and no two competing posts share
      position and transaction. */
  lemma {:induction false} EveryCallIsAccountedFor(keccak: Hash, calls: seq<Call>, n: nat)
    requires n <= |calls|
    ensures var posts := Posts(keccak, calls, Honest);
            && Entities(Run(posts, n)) <= n
            && (Entities(Run(posts, n)) == n <==> DistinctIds(posts, n) && DistinctConflicts(posts, n))
  {
    HonestReadsAreFresh(keccak, calls);
    EntitiesAreKept(Posts(keccak, calls, Honest), n);
    KeptAll(Posts(keccak, calls, Honest), n);
    DistinctMeansKept(Posts(keccak, calls, Honest), n);
  }

  /** With conflicts taken by the streams' counters instead, only the malformed posts can fall short. */
  lemma {:induction false} CountersAccountForCalls(keccak: Hash, calls: seq<Call>, n: nat)
    requires n <= |calls|
    ensures Total(Run(Posts(keccak, calls, Honest), n)) <= n
    ensures Total(Run(Posts(keccak, calls, Honest), n)) == n <==> DistinctIds(Posts(keccak, calls, Honest), n)
  {
    HonestReadsAreFresh(keccak, calls);
    PostsAreCounted(Posts(keccak, calls, Honest), n);
  }

  ghost predicate DistinctHashes(calls: seq<Call>) {
    forall i, j :: 0 <= i < j < |calls| ==> calls[i].txHash != calls[j].txHash
  }

  /** In particular when no transaction makes two calls. */
  lemma {:induction false} OneCallATransaction(keccak: Hash, calls: seq<Call>, n: nat)
    requires n <= |calls| && DistinctHashes(calls)
    ensures Entities(Run(Posts(keccak, calls, Honest), n)) == n
  {
    var posts := Posts(keccak, calls, Honest);
    forall i, j | 0 <= i < j < n && posts[i].Undecodable? && posts[j].Undecodable? ensures posts[i].id != posts[j].id {
      IdsDiffer(keccak, calls[i], calls[j]);
    }
    forall i, j | 0 <= i < j < n && posts[i].Position? && posts[j].Position?
      ensures ConflictKey(posts[i]) != ConflictKey(posts[j])
    {
      KeysDiffer(posts[i].anchor, posts[j].anchor);
    }
    EveryCallIsAccountedFor(keccak, calls, n);
  }

  lemma {:induction false} KeysDiffer(a: Anchor, b: Anchor)
    requires a.txHash != b.txHash
    ensures ConflictId(a.stream, a.seqNo, a.txHash) != ConflictId(b.stream, b.seqNo, b.txHash)
  {
    if ConflictId(a.stream, a.seqNo, a.txHash) == ConflictId(b.stream, b.seqNo, b.txHash) {
      ConflictIdInjective(a.stream, a.seqNo, a.txHash, b.stream, b.seqNo, b.txHash);
    }
  }

  lemma {:induction false} IdsDiffer(keccak: Hash, c: Call, d: Call)
    requires c.txHash != d.txHash
    ensures MalformedId(keccak, c.txHash, c.payload) != MalformedId(keccak, d.txHash, d.payload)
  {
    if MalformedId(keccak, c.txHash, c.payload) == MalformedId(keccak, d.txHash, d.payload) {
      MalformedIdInjective(keccak, c.txHash, c.payload, d.txHash, d.payload);
    }
  }
}
