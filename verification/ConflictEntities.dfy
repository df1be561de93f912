/** The conflict table of a stream against its counter. */
module ConflictEntities {
  import opened Basics
  import opened ByteCodec
  import opened Envelope
  import opened AnchorIndexes
  import opened StoreInvariants
  import opened Conservation

  /** The ids of one stream's conflict entities. */
  ghost function ConflictsOf(st: Store, stream: Bytes): set<string> {
    set id | id in st.conflicts && st.conflicts[id].stream == stream
  }

  function ConflictCount(st: Store, stream: Bytes): nat {
    if stream in st.streams then st.streams[stream].conflictCount else 0
  }

  // ----- one post ------------------------------------------------------------------------------

  ghost predicate CompetesFor(st: Store, p: Post, stream: Bytes) {
    p.Position? && CompetesIn(st, p.anchor) && p.anchor.stream == stream
  }

  lemma {:induction false} CompetedOther(st: Store, a: Anchor, stream: Bytes)
    requires ConflictsSound(st) && |a.stream| == 32 && a.stream != stream
    ensures ConflictsOf(Compete(st, a), stream) == ConflictsOf(st, stream)
  {
    var st', key := Compete(st, a), ConflictId(a.stream, a.seqNo, a.txHash);
    if key in st.conflicts {
      var c := st.conflicts[key];
      assert ConflictSound(key, c);
      ConflictIdInjective(c.stream, c.seqNo, c.txHash, a.stream, a.seqNo, a.txHash);
    }
    forall id ensures id in ConflictsOf(st', stream) <==> id in ConflictsOf(st, stream) {}
  }

  lemma {:induction false} PostCompetes(keccak: Hash, st: Store, p: Post, stream: Bytes)
    requires ConflictsSound(st) && PostSound(keccak, p)
    ensures var st' := Apply(st, p);
            && ConflictCount(st', stream) == ConflictCount(st, stream) + (if CompetesFor(st, p, stream) then 1 else 0)
            && ConflictsOf(st', stream) ==
                 ConflictsOf(st, stream) + (if CompetesFor(st, p, stream) then {ConflictKey(p)} else {})
  {
    if p.Position? && CompetesIn(st, p.anchor) {
      if p.anchor.stream != stream { CompetedOther(st, p.anchor, stream); }
    }
  }

  // ----- whole runs ------------------------------------------------------------------------------

  /** No two posts that compete for the stream among the first `n` share position and transaction. */
  ghost predicate DistinctFor(posts: seq<Post>, n: nat, stream: Bytes)
    requires n <= |posts|
  {
    forall i, j {:trigger CompetesAt(posts, i, stream), CompetesAt(posts, j, stream)} ::
      0 <= i < j < n && CompetesAt(posts, i, stream) && CompetesAt(posts, j, stream) ==>
        !(posts[i].anchor.seqNo == posts[j].anchor.seqNo && posts[i].anchor.txHash == posts[j].anchor.txHash)
  }

  ghost predicate CompetesAt(posts: seq<Post>, i: nat, stream: Bytes)
    requires i < |posts|
  {
    CompetesFor(Run(posts, i), posts[i], stream)
  }

  /** A post among the first `n` that competes for the stream is filed under this id. */
  ghost predicate FiledFor(posts: seq<Post>, n: nat, stream: Bytes, id: string)
    requires n <= |posts|
  {
    exists i {:trigger CompetesAt(posts, i, stream)} ::
      0 <= i < n && CompetesAt(posts, i, stream) && ConflictKey(posts[i]) == id
  }

  lemma FiledForNext(posts: seq<Post>, k: nat, n: nat, stream: Bytes, id: string)
    requires k + 1 == n <= |posts|
    ensures FiledFor(posts, n, stream, id) <==>
              FiledFor(posts, k, stream, id) || (CompetesAt(posts, k, stream) && ConflictKey(posts[k]) == id)
  {}

  lemma {:induction false} TableNext(keccak: Hash, posts: seq<Post>, k: nat, n: nat, stream: Bytes)
    requires k + 1 == n <= |posts| && PostsSound(keccak, posts)
    ensures ConflictCount(Run(posts, n), stream) ==
              ConflictCount(Run(posts, k), stream) + (if CompetesAt(posts, k, stream) then 1 else 0)
    ensures ConflictsOf(Run(posts, n), stream) ==
              ConflictsOf(Run(posts, k), stream) + (if CompetesAt(posts, k, stream) then {ConflictKey(posts[k])} else {})
  {
    RunKeepsConflicts(keccak, posts, k);
    PostCompetes(keccak, Run(posts, k), posts[k], stream);
  }

  lemma {:induction false} KeyNext(keccak: Hash, posts: seq<Post>, k: nat, n: nat, stream: Bytes, id: string)
    requires k + 1 == n <= |posts| && PostsSound(keccak, posts)
    ensures id in ConflictsOf(Run(posts, n), stream) <==>
              id in ConflictsOf(Run(posts, k), stream) || (CompetesAt(posts, k, stream) && ConflictKey(posts[k]) == id)
  {
    TableNext(keccak, posts, k, n, stream);
  }

  lemma {:induction false} KeysFor(keccak: Hash, posts: seq<Post>, n: nat, stream: Bytes, id: string)
    requires n <= |posts| && PostsSound(keccak, posts)
    ensures id in ConflictsOf(Run(posts, n), stream) <==> FiledFor(posts, n, stream, id)
  {
    hide Apply, CompetesAt, ConflictKey;
    if n > 0 {
      KeysFor(keccak, posts, n - 1, stream, id);
      KeyNext(keccak, posts, n - 1, n, stream, id);
      FiledForNext(posts, n - 1, n, stream, id);
    }
  }

  lemma {:induction false} DistinctNext(keccak: Hash, posts: seq<Post>, k: nat, n: nat, stream: Bytes)
    requires k + 1 == n <= |posts| && PostsSound(keccak, posts)
    ensures DistinctFor(posts, n, stream) <==>
              && DistinctFor(posts, k, stream)
              && !(CompetesAt(posts, k, stream) && FiledFor(posts, k, stream, ConflictKey(posts[k])))
  {
    forall i | 0 <= i < k && CompetesAt(posts, i, stream) && CompetesAt(posts, k, stream)
      ensures ConflictKey(posts[i]) == ConflictKey(posts[k]) <==>
                posts[i].anchor.seqNo == posts[k].anchor.seqNo && posts[i].anchor.txHash == posts[k].anchor.txHash
    {
      ConflictKeyExactly(posts[i], posts[k]);
    }
  }

  /** How the table stands to the counter. */
  ghost predicate Tally(st: Store, stream: Bytes, distinct: bool) {
    && |ConflictsOf(st, stream)| <= ConflictCount(st, stream)
    && (|ConflictsOf(st, stream)| == ConflictCount(st, stream) <==> distinct)
    && (|ConflictsOf(st, stream)| > 0 <==> ConflictCount(st, stream) > 0)
  }

  lemma OneMore<T>(s: set<T>, x: T)
    ensures |s + {x}| == |s| + if x in s then 0 else 1
  {
    if x in s { assert s + {x} == s; }
  }

  lemma {:induction false} RunTallies(keccak: Hash, posts: seq<Post>, n: nat, stream: Bytes)
    requires n <= |posts| && PostsSound(keccak, posts)
    ensures Tally(Run(posts, n), stream, DistinctFor(posts, n, stream))
  {
    if n == 0 {
      NothingTallied(stream);
    } else {
      var k := n - 1;
      RunTallies(keccak, posts, k, stream);
      TableNext(keccak, posts, k, n, stream);
      KeysFor(keccak, posts, k, stream, ConflictKey(posts[k]));
      DistinctNext(keccak, posts, k, n, stream);
      OneMore(ConflictsOf(Run(posts, k), stream), ConflictKey(posts[k]));
    }
  }

  lemma NothingTallied(stream: Bytes)
    ensures Tally(EMPTY, stream, true)
  {}

  /** In every reachable store, of any mode, a stream has conflict entities exactly if its counter is positive, never
      more of them than it counts, and exactly as many if and only if no two competing posts share position and
      transaction. */
  lemma {:induction false} EntitiesAgainstCounter(keccak: Hash, calls: seq<Call>, mode: Mode, n: nat, stream: Bytes)
    requires n <= |calls|
    ensures var posts := Posts(keccak, calls, mode);
            Tally(Run(posts, n), stream, DistinctFor(posts, n, stream))
  {
    CallsReadSound(keccak, calls, mode);
    RunTallies(keccak, Posts(keccak, calls, mode), n, stream);
  }

  /** So a stream is flagged exactly if there is a conflict entity to show for it. */
  lemma {:induction false} FlaggedExactly(keccak: Hash, calls: seq<Call>, mode: Mode, n: nat, stream: Bytes)
    requires n <= |calls|
    ensures var st := Run(Posts(keccak, calls, mode), n);
            stream in st.streams ==> (st.streams[stream].hasConflicts <==> ConflictsOf(st, stream) != {})
  {
    var st := Run(Posts(keccak, calls, mode), n);
    ReachableStoresAreSound(keccak, calls, mode, n);
    EntitiesAgainstCounter(keccak, calls, mode, n, stream);
    assert stream in st.streams ==> StreamSound(st, stream, st.streams[stream]);
  }

  // ----- what is lost ------------------------------------------------------------------------------

  /** The calls post well-formed envelopes at one position of one stream. */
  ghost predicate SamePosition(c: Call, d: Call) {
    && DecodeEnvelope(c.payload).Ok? && DecodeEnvelope(d.payload).Ok?
    && DecodeEnvelope(c.payload).value.streamId == DecodeEnvelope(d.payload).value.streamId
    && DecodeEnvelope(c.payload).value.seqNo == DecodeEnvelope(d.payload).value.seqNo
  }

  /** Two competing posts of one transaction: the counter says two, the table holds the second only. */
  lemma {:induction false} ConflictIsOverwritten(keccak: Hash, a: Call, b: Call, c: Call)
    requires SamePosition(a, b) && SamePosition(a, c) && b.txHash == c.txHash
    requires keccak(a.payload) != keccak(b.payload) && keccak(a.payload) != keccak(c.payload)
    ensures var st := Run(Posts(keccak, [a, b, c], Honest), 3);
            && ConflictCount(st, DecodeEnvelope(a.payload).value.streamId) == 2
            && |st.conflicts| == 1 && Entities(st) == 2
  {
    var posts := Posts(keccak, [a, b, c], Honest);
    var x, y, z := posts[0].anchor, posts[1].anchor, posts[2].anchor;
    assert Run(posts, 0) == EMPTY;
    assert Run(posts, 1) == First(EMPTY, x);
    assert Run(posts, 2) == Compete(First(EMPTY, x), y);
    assert Run(posts, 3) == Compete(Compete(First(EMPTY, x), y), z);
    TwiceContested(x, y, z);
  }

  lemma TwiceContested(x: Anchor, y: Anchor, z: Anchor)
    requires x.stream == y.stream == z.stream && x.seqNo == y.seqNo == z.seqNo && y.txHash == z.txHash
    requires x.duplicateCount == 0
    ensures var st := Compete(Compete(First(EMPTY, x), y), z);
            ConflictCount(st, x.stream) == 2 && |st.conflicts| == 1 && Entities(st) == 2
  {
    FirstFilesOne(EMPTY, x);
    CompeteFilesOne(First(EMPTY, x), y);
    CompeteFilesOne(Compete(First(EMPTY, x), y), z);
    assert Compete(Compete(First(EMPTY, x), y), z).conflicts == map[ConflictId(z.stream, z.seqNo, z.txHash) := AsConflict(z)];
  }

  /** The same undecodable payload twice in one transaction: one entity. */
  lemma {:induction false} MalformedIsOverwritten(keccak: Hash, c: Call)
    requires DecodeEnvelope(c.payload).Err?
    ensures Entities(Run(Posts(keccak, [c, c], Honest), 2)) == 1
  {
    var posts := Posts(keccak, [c, c], Honest);
    var id, entity := posts[0].id, posts[0].entity;
    assert Run(posts, 0) == EMPTY;
    assert Run(posts, 1) == Apply(EMPTY, posts[0]);
    assert Run(posts, 2) == Apply(Apply(EMPTY, posts[0]), posts[1]);
    UndecodableFilesOne(EMPTY, id, entity);
    UndecodableFilesOne(Apply(EMPTY, posts[0]), id, entity);
  }
}
