/** Checking what the indexer served: replay/src/anchors.rs. */
module ServedLog {
  import opened Basics
  import opened ByteCodec
  import opened Text

  /** Served entities carry every number as decimal text. */
  datatype CommitmentEntity = CommitmentEntity(id: string, leafIndex: string, value: string)

  datatype CallEntity = CallEntity(id: string, leafCountAfter: string)

  datatype AnchorSet = AnchorSet(hasIndexingErrors: bool, commitments: seq<CommitmentEntity>, nullifiers: seq<string>,
                                 rootsClaimed: seq<string>, calls: seq<CallEntity>)

  datatype ServedError = IndexingErrors | PageFull(count: nat) | NotANumber(text: string) | SameLeafIndex(index: nat)
                       | NotContiguous(expected: nat, found: nat) | NotMonotonic(id: string)

  const PAGE_LIMIT: nat := 1000

  /** The number decimal digits denote; `None` if there is another character among them. */
  function ReadDigits(s: string): Option<nat> {
    if s == [] then Some(0)
    else
      var high := ReadDigits(s[..|s| - 1]);
      if high.None? || !IsDigit(s[|s| - 1]) then None else Some(high.value * 10 + DigitValue(s[|s| - 1]))
  }

  /** The library's parse of an unsigned 64-bit number: an optional plus sign, then at least one digit. */
  function ParseU64(s: string): (r: Option<nat>)
    ensures r.Some? ==> r.value < U64_LIMIT
  {
    var digits := if s != [] && s[0] == '+' then s[1..] else s;
    var number := ReadDigits(digits);
    if digits == [] || number.None? || number.value >= U64_LIMIT then None else number
  }

  lemma {:induction false} DigitsRead(s: string)
    requires AllDigits(s)
    ensures ReadDigits(s) == Some(Value(s))
  {
    if s != [] { DigitsRead(s[..|s| - 1]); }
  }

  lemma {:induction false} DecimalParses(n: nat)
    requires n < U64_LIMIT
    ensures ParseU64(Decimal(n)) == Some(n)
  {
    DecimalValue(n);
    DigitsRead(Decimal(n));
  }

  // ----- the page check ------------------------------------------------------------

  ghost predicate WithinPage(anchorSet: AnchorSet) {
    && |anchorSet.commitments| < 1000 && |anchorSet.nullifiers| < 1000
    && |anchorSet.rootsClaimed| < 1000 && |anchorSet.calls| < 1000
  }

  /** A collection as long as a page may have been cut off: refuse it. */
  method CheckAnchorSet(anchorSet: AnchorSet) returns (r: Result<AnchorSet, ServedError>)
    ensures r.Ok? <==> !anchorSet.hasIndexingErrors && WithinPage(anchorSet)
    ensures r.Ok? ==> r.value == anchorSet
    ensures r.Err? ==> if anchorSet.hasIndexingErrors then r.error == IndexingErrors else r.error.PageFull? && r.error.count >= 1000
  {
    if anchorSet.hasIndexingErrors { return Err(IndexingErrors); }
    var lengths := [|anchorSet.commitments|, |anchorSet.nullifiers|, |anchorSet.rootsClaimed|, |anchorSet.calls|];
    for i := 0 to |lengths|
      invariant forall k :: 0 <= k < i ==> lengths[k] < PAGE_LIMIT
    {
      if lengths[i] >= PAGE_LIMIT {
        assert !(lengths[i] < PAGE_LIMIT);
        return Err(PageFull(lengths[i]));
      }
    }
    assert lengths[0] < PAGE_LIMIT && lengths[1] < PAGE_LIMIT && lengths[2] < PAGE_LIMIT && lengths[3] < PAGE_LIMIT;
    return Ok(anchorSet);
  }

  // ----- leaf order ------------------------------------------------------------------

  /** `xs` is what was served, with leaf `i` at position `i`. */
  ghost predicate Ordered(served: seq<CommitmentEntity>, xs: seq<CommitmentEntity>) {
    && multiset(xs) == multiset(served)
    && forall i {:trigger xs[i]} :: 0 <= i < |xs| ==> ParseU64(xs[i].leafIndex) == Some(i)
  }

  function LeafIndex(): CommitmentEntity -> int {
    (c: CommitmentEntity) => match ParseU64(c.leafIndex) case Some(i) => i case None => -1
  }

  lemma OrderedPosition(served: seq<CommitmentEntity>, xs: seq<CommitmentEntity>, c: CommitmentEntity)
    requires Ordered(served, xs) && c in served
    ensures ParseU64(c.leafIndex).Some?
    ensures ParseU64(c.leafIndex).value < |xs| == |served| && xs[ParseU64(c.leafIndex).value] == c
  {
    assert c in multiset(xs);
    var i :| 0 <= i < |xs| && xs[i] == c;
    assert |multiset(xs)| == |xs| && |multiset(served)| == |served|;
  }

  /** There is at most one such order. */
  lemma {:induction false} OrderedUnique(served: seq<CommitmentEntity>, xs: seq<CommitmentEntity>, ys: seq<CommitmentEntity>)
    requires Ordered(served, xs) && Ordered(served, ys)
    ensures xs == ys
  {
    assert |multiset(xs)| == |xs| && |multiset(ys)| == |ys|;
    forall i | 0 <= i < |xs| ensures xs[i] == ys[i] {
      assert xs[i] in multiset(served);
      OrderedPosition(served, ys, xs[i]);
    }
  }

  lemma {:induction false} OrderedDistinct(served: seq<CommitmentEntity>, xs: seq<CommitmentEntity>, p: nat, q: nat)
    requires Ordered(served, xs) && p < q < |served|
    ensures ParseU64(served[p].leafIndex) != ParseU64(served[q].leafIndex)
  {
    var a, b := Map(LeafIndex(), served), Map(LeafIndex(), xs);
    MapPermutes(LeafIndex(), served, xs);
    assert |multiset(a)| == |a| && |multiset(b)| == |b|;
    assert NoDup(b) by { assert forall i :: 0 <= i < |b| ==> b[i] == i; }
    forall x ensures x in a <==> x in b { assert x in multiset(a) <==> x in multiset(b); }
    assert Elements(a) == Elements(b);
    DistinctCount(a);
    DistinctCount(b);
    assert a[p] != a[q];
  }

  /** The order of what was served, if it has one. */
  ghost function InOrder(served: seq<CommitmentEntity>): Option<seq<CommitmentEntity>> {
    if xs :| Ordered(served, xs) then Some(xs) else None
  }

  lemma InOrderIs(served: seq<CommitmentEntity>, xs: seq<CommitmentEntity>)
    requires Ordered(served, xs)
    ensures InOrder(served) == Some(xs)
  {
    OrderedUnique(served, InOrder(served).value, xs);
  }

  // ----- filing by index -----------------------------------------------------------------

  /** Entity `c` is one of the first `n`, and its index is `i`. */
  ghost predicate From(served: seq<CommitmentEntity>, n: nat, c: CommitmentEntity, i: nat)
    requires n <= |served|
  {
    exists p :: 0 <= p < n && served[p] == c && ParseU64(c.leafIndex) == Some(i)
  }

  /** After `n` entities: each filed under its own index, no index twice. */
  ghost predicate FiledTo(served: seq<CommitmentEntity>, n: nat, byIndex: map<nat, CommitmentEntity>) {
    && n <= |served| && |byIndex| == n
    && (forall i :: i in byIndex ==> From(served, n, byIndex[i], i))
  }

  lemma FiledNext(served: seq<CommitmentEntity>, n: nat, byIndex: map<nat, CommitmentEntity>, i: nat)
    requires FiledTo(served, n, byIndex) && n < |served|
    requires ParseU64(served[n].leafIndex) == Some(i) && i !in byIndex
    ensures FiledTo(served, n + 1, byIndex[i := served[n]])
  {
    hide ParseU64;
    var byIndex' := byIndex[i := served[n]];
    assert byIndex'.Keys == byIndex.Keys + {i};
    forall j | j in byIndex' ensures From(served, n + 1, byIndex'[j], j) {
      if j == i { assert served[n] == byIndex'[j]; } else { assert From(served, n, byIndex[j], j); }
    }
  }

  lemma {:induction false} RefiledIsUnordered(served: seq<CommitmentEntity>, n: nat, byIndex: map<nat, CommitmentEntity>, i: nat)
    requires FiledTo(served, n, byIndex) && n < |served|
    requires ParseU64(served[n].leafIndex) == Some(i) && i in byIndex
    ensures InOrder(served).None?
  {
    assert From(served, n, byIndex[i], i);
    var p :| 0 <= p < n && served[p] == byIndex[i];
    if xs :| Ordered(served, xs) { OrderedDistinct(served, xs, p, n); }
  }

  lemma NotANumberIsUnordered(served: seq<CommitmentEntity>, c: CommitmentEntity)
    requires c in served && ParseU64(c.leafIndex).None?
    ensures InOrder(served).None?
  {
    if xs :| Ordered(served, xs) { OrderedPosition(served, xs, c); }
  }

  // ----- the keys of a B-tree map --------------------------------------------------------

  lemma {:induction false} LeastOf(s: set<nat>) returns (k: nat)
    requires s != {}
    ensures k in s && forall j :: j in s ==> k <= j
    decreases |s|
  {
    var any :| any in s;
    var rest := s - {any};
    assert forall j :: j in s ==> j == any || j in rest;
    if rest == {} {
      k := any;
    } else {
      var m := LeastOf(rest);
      k := if m < any then m else any;
    }
  }

  /** The keys `keys` of `s`, each once, in ascending order. */
  ghost predicate KeysOf(keys: seq<nat>, s: set<nat>) {
    && |keys| == |s|
    && (forall k :: k in keys <==> k in s)
    && (forall i, j :: 0 <= i < j < |keys| ==> keys[i] < keys[j])
  }

  ghost predicate AllBelow(a: set<nat>, b: set<nat>) {
    forall i, j :: i in a && j in b ==> i < j
  }

  lemma KeysNext(keys: seq<nat>, done: set<nat>, rest: set<nat>, k: nat)
    requires KeysOf(keys, done) && AllBelow(done, rest) && k in rest
    ensures KeysOf(keys + [k], done + {k})
  {
    forall i | 0 <= i < |keys| ensures keys[i] < k { assert keys[i] in keys; }
  }

  lemma BelowNext(done: set<nat>, rest: set<nat>, k: nat)
    requires AllBelow(done, rest) && k in rest && forall j :: j in rest ==> k <= j
    ensures AllBelow(done + {k}, rest - {k})
  {}

  method AscendingKeys(s: set<nat>) returns (keys: seq<nat>)
    ensures KeysOf(keys, s)
  {
    keys := [];
    var rest := s;
    ghost var done: set<nat> := {};
    while rest != {}
      invariant done + rest == s && KeysOf(keys, done) && AllBelow(done, rest)
      decreases |rest|
    {
      var k := TakeLeast(rest);
      KeysNext(keys, done, rest, k);
      BelowNext(done, rest, k);
      assert (done + {k}) + (rest - {k}) == done + rest;
      keys, rest, done := keys + [k], rest - {k}, done + {k};
    }
    assert done == s;
  }

  method TakeLeast(s: set<nat>) returns (k: nat)
    requires s != {}
    ensures k in s && forall j :: j in s ==> k <= j
  {
    ghost var least := LeastOf(s);
    k :| k in s && forall j :: j in s ==> k <= j;
  }

  lemma {:induction false} KeysAtLeast(keys: seq<nat>, i: nat)
    requires (forall a, b :: 0 <= a < b < |keys| ==> keys[a] < keys[b]) && i < |keys|
    ensures keys[i] >= i
  {
    if i > 0 { KeysAtLeast(keys, i - 1); }
  }

  lemma {:induction false} KeysOvershoot(keys: seq<nat>, position: nat, i: nat)
    requires forall a, b :: 0 <= a < b < |keys| ==> keys[a] < keys[b]
    requires position <= i < |keys| && keys[position] > position
    ensures keys[i] > i
    decreases i
  {
    if i > position { KeysOvershoot(keys, position, i - 1); }
  }

  // ----- ordering what was served ---------------------------------------------------------

  method OrderedCommitments(served: seq<CommitmentEntity>) returns (r: Result<seq<CommitmentEntity>, ServedError>)
    ensures InOrder(served) == if r.Ok? then Some(r.value) else None
  {
    var filed := FileByIndex(served);
    if filed.Err? { return Err(filed.error); }
    r := ReadInOrder(served, filed.value);
  }

  method FileByIndex(served: seq<CommitmentEntity>) returns (r: Result<map<nat, CommitmentEntity>, ServedError>)
    ensures r.Ok? ==> FiledTo(served, |served|, r.value)
    ensures r.Err? ==> InOrder(served).None?
  {
    var byIndex: map<nat, CommitmentEntity> := map[];
    for n := 0 to |served|
      invariant FiledTo(served, n, byIndex)
    {
      var index := ParseU64(served[n].leafIndex);
      if index.None? {
        NotANumberIsUnordered(served, served[n]);
        return Err(NotANumber(served[n].leafIndex));
      }
      if index.value in byIndex {
        RefiledIsUnordered(served, n, byIndex, index.value);
        return Err(SameLeafIndex(index.value));
      }
      FiledNext(served, n, byIndex, index.value);
      byIndex := byIndex[index.value := served[n]];
    }
    return Ok(byIndex);
  }

  method ReadInOrder(ghost served: seq<CommitmentEntity>, byIndex: map<nat, CommitmentEntity>)
    returns (r: Result<seq<CommitmentEntity>, ServedError>)
    requires FiledTo(served, |served|, byIndex)
    ensures InOrder(served) == if r.Ok? then Some(r.value) else None
  {
    var keys := AscendingKeys(byIndex.Keys);
    var values: seq<CommitmentEntity> := [];
    for position := 0 to |keys|
      invariant |values| == position && InPlace(byIndex, values)
    {
      assert keys[position] in keys;
      var k := keys[position];
      if k != position {
        HoleIsUnordered(served, byIndex, keys, position);
        return Err(NotContiguous(position, k));
      }
      InPlaceNext(byIndex, values);
      values := values + [byIndex[k]];
    }
    ValuesAreOrdered(served, byIndex, values);
    return Ok(values);
  }

  ghost predicate InPlace(byIndex: map<nat, CommitmentEntity>, values: seq<CommitmentEntity>) {
    forall k: nat {:trigger values[k]} :: k < |values| ==> Holds(byIndex, k, values[k])
  }

  /** Ascending keys that miss their position reach past the count. */
  lemma {:induction false} HoleIsUnordered(served: seq<CommitmentEntity>, byIndex: map<nat, CommitmentEntity>,
                                           keys: seq<nat>, position: nat)
    requires FiledTo(served, |served|, byIndex) && KeysOf(keys, byIndex.Keys)
    requires position < |keys| && keys[position] != position
    ensures InOrder(served).None?
  {
    var last := |keys| - 1;
    KeysAtLeast(keys, position);
    KeysOvershoot(keys, position, last);
    assert keys[last] in keys;
    assert From(served, |served|, byIndex[keys[last]], keys[last]);
    if xs :| Ordered(served, xs) { OrderedPosition(served, xs, byIndex[keys[last]]); }
  }

  ghost predicate Holds(byIndex: map<nat, CommitmentEntity>, k: nat, c: CommitmentEntity) {
    k in byIndex && byIndex[k] == c
  }

  lemma InPlaceNext(byIndex: map<nat, CommitmentEntity>, values: seq<CommitmentEntity>)
    requires InPlace(byIndex, values) && |values| in byIndex
    ensures InPlace(byIndex, values + [byIndex[|values|]])
  {}

  lemma {:induction false} ValuesAreOrdered(served: seq<CommitmentEntity>, byIndex: map<nat, CommitmentEntity>,
                                            values: seq<CommitmentEntity>)
    requires FiledTo(served, |served|, byIndex) && |values| == |served|
    requires InPlace(byIndex, values)
    ensures InOrder(served) == Some(values)
  {
    forall k: nat | k < |values| ensures ParseU64(values[k].leafIndex) == Some(k) && values[k] in served {
      assert Holds(byIndex, k, values[k]);
      assert From(served, |served|, byIndex[k], k);
    }
    assert NoDup(values) by {
      forall i, j | 0 <= i < j < |values| ensures values[i] != values[j] {
        assert ParseU64(values[i].leafIndex) != ParseU64(values[j].leafIndex);
      }
    }
    SameSizeSubset(values, served);
    InOrderIs(served, values);
  }

  /** Distinct elements of a list no longer than they are: all of it. */
  lemma {:induction false} SameSizeSubset<T>(xs: seq<T>, ys: seq<T>)
    requires NoDup(xs) && |xs| == |ys| && forall k :: 0 <= k < |xs| ==> xs[k] in ys
    ensures multiset(xs) == multiset(ys)
  {
    DistinctCount(xs);
    DistinctCount(ys);
    forall x | x in Elements(xs) ensures x in Elements(ys) { var k :| 0 <= k < |xs| && xs[k] == x; }
    SubsetSize(Elements(xs), Elements(ys));
    forall x ensures x in xs <==> x in ys { assert x in Elements(xs) <==> x in Elements(ys); }
    SameElements(xs, ys);
  }

  lemma SubsetSize<T>(a: set<T>, b: set<T>)
    requires a <= b
    ensures |a| <= |b| && (|a| == |b| ==> a == b)
  {
    assert b == a + (b - a);
  }

  // ----- leaf counts ----------------------------------------------------------------------

  lemma {:induction false} LexLessTotal(a: string, b: string)
    ensures LexLess(a, b) || a == b || LexLess(b, a)
    ensures !(LexLess(a, b) && LexLess(b, a)) && !LexLess(a, a)
    decreases |a|
  {
    if a != [] && b != [] {
      LexLessTotal(a[1..], b[1..]);
      LexLessTotal(a[1..], a[1..]);
      assert a == [a[0]] + a[1..] && b == [b[0]] + b[1..];
    } else if a != [] {
      LexLessTotal(a[1..], a[1..]);
    }
  }

  lemma {:induction false} LexLessTransitive(a: string, b: string, c: string)
    requires LexLess(a, b) && LexLess(b, c)
    ensures LexLess(a, c)
  {
    if a != [] && a[0] == b[0] == c[0] { LexLessTransitive(a[1..], b[1..], c[1..]); }
  }

  function ById(): (CallEntity, CallEntity) -> bool {
    (a: CallEntity, b: CallEntity) => LexLeq(a.id, b.id)
  }

  lemma ByIdOrders()
    ensures TotalPreorder(ById())
  {
    forall x: CallEntity, y: CallEntity ensures ById()(x, y) || ById()(y, x) { LexLessTotal(x.id, y.id); }
    forall x: CallEntity, y: CallEntity, z: CallEntity | ById()(x, y) && ById()(y, z) ensures ById()(x, z) {
      if x.id != y.id && y.id != z.id { LexLessTransitive(x.id, y.id, z.id); }
    }
  }

  function CallsInOrder(calls: seq<CallEntity>): seq<CallEntity> { Sort(ById(), calls) }

  function CountOf(): CallEntity -> nat {
    (c: CallEntity) => match ParseU64(c.leafCountAfter) case Some(n) => n case None => 0
  }

  /** Every count is a number, and none is below the one before it. */
  ghost predicate Monotone(calls: seq<CallEntity>) {
    && (forall i {:trigger calls[i]} :: 0 <= i < |calls| ==> ParseU64(calls[i].leafCountAfter).Some?)
    && (forall i, j :: 0 <= i < j < |calls| ==> CountOf()(calls[i]) <= CountOf()(calls[j]))
  }

  /** The leaf totals in id order, if they are numbers that never fall. */
  ghost function Counts(calls: seq<CallEntity>): Option<seq<nat>> {
    if Monotone(CallsInOrder(calls)) then Some(Map(CountOf(), CallsInOrder(calls))) else None
  }

  method LeafCountsAfterEachCall(calls: seq<CallEntity>) returns (r: Result<seq<nat>, ServedError>)
    ensures Counts(calls) == if r.Ok? then Some(r.value) else None
  {
    r := CountInOrder(CallsInOrder(calls));
  }

  method CountInOrder(sorted: seq<CallEntity>) returns (r: Result<seq<nat>, ServedError>)
    ensures r.Ok? <==> Monotone(sorted)
    ensures r.Ok? ==> r.value == Map(CountOf(), sorted)
  {
    hide ParseU64, CountOf, Monotone, CountedTo;
    var counts: seq<nat> := [];
    var previous: nat := 0;
    CountedEnds(sorted, [], 0);
    for n := 0 to |sorted|
      invariant CountedTo(sorted, n, counts, previous)
    {
      var after := ParseU64(sorted[n].leafCountAfter);
      if after.None? {
        NoNumber(sorted, n);
        return Err(NotANumber(sorted[n].leafCountAfter));
      }
      if after.value < previous {
        Falls(sorted, n, counts, previous, after.value);
        return Err(NotMonotonic(sorted[n].id));
      }
      CountedNext(sorted, n, counts, previous, after.value);
      previous := after.value;
      counts := counts + [after.value];
    }
    CountedEnds(sorted, counts, previous);
    return Ok(counts);
  }

  lemma CountedEnds(sorted: seq<CallEntity>, counts: seq<nat>, previous: nat)
    ensures CountedTo(sorted, 0, [], 0)
    ensures CountedTo(sorted, |sorted|, counts, previous) ==> Monotone(sorted) && counts == Map(CountOf(), sorted)
  {
    assert sorted[..|sorted|] == sorted && sorted[..0] == [];
  }

  ghost predicate CountedTo(sorted: seq<CallEntity>, n: nat, counts: seq<nat>, previous: nat) {
    && n <= |sorted| && Monotone(sorted[..n]) && counts == Map(CountOf(), sorted[..n])
    && previous == if n == 0 then 0 else CountOf()(sorted[n - 1])
  }

  lemma NoNumber(sorted: seq<CallEntity>, n: nat)
    requires n < |sorted| && ParseU64(sorted[n].leafCountAfter).None?
    ensures !Monotone(sorted)
  {
    var c := sorted[n];
    assert sorted[n] == c;
  }

  lemma Falls(sorted: seq<CallEntity>, n: nat, counts: seq<nat>, previous: nat, after: nat)
    requires CountedTo(sorted, n, counts, previous) && n < |sorted|
    requires ParseU64(sorted[n].leafCountAfter) == Some(after) && after < previous
    ensures !Monotone(sorted)
  {
    assert CountOf()(sorted[n]) == after;
    assert !(CountOf()(sorted[n - 1]) <= CountOf()(sorted[n]));
  }

  lemma CountedNext(sorted: seq<CallEntity>, n: nat, counts: seq<nat>, previous: nat, after: nat)
    requires CountedTo(sorted, n, counts, previous) && n < |sorted|
    requires ParseU64(sorted[n].leafCountAfter) == Some(after) && previous <= after
    ensures CountedTo(sorted, n + 1, counts + [after], after)
  {
    var xs, c := sorted[..n], sorted[n];
    assert sorted[..n + 1] == xs + [c];
    assert CountOf()(c) == after;
    if n > 0 { assert xs[n - 1] == sorted[n - 1]; }
    MonotoneNext(xs, c);
    MapConcat(CountOf(), xs, [c]);
    assert Map(CountOf(), [c]) == [after];
  }

  lemma MonotoneNext(xs: seq<CallEntity>, c: CallEntity)
    requires Monotone(xs) && ParseU64(c.leafCountAfter).Some?
    requires xs != [] ==> CountOf()(xs[|xs| - 1]) <= CountOf()(c)
    ensures Monotone(xs + [c])
  {
    var ys, n := xs + [c], |xs|;
    forall i | 0 <= i < |ys| ensures ParseU64(ys[i].leafCountAfter).Some? {
      if i < n { assert ys[i] == xs[i]; }
    }
    forall i, j | 0 <= i < j < |ys| ensures CountOf()(ys[i]) <= CountOf()(ys[j]) {
      if j < n {
        assert CountOf()(xs[i]) <= CountOf()(xs[j]);
      } else if i < n - 1 {
        assert CountOf()(xs[i]) <= CountOf()(xs[n - 1]);
      }
    }
  }
}
