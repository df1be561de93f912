/** Sequence and map vocabulary shared by every component. */
module Basics {

  datatype Option<+T> = None | Some(value: T)

  datatype Result<+T, +E> = Ok(value: T) | Err(error: E)

  ghost predicate NoDup<T>(xs: seq<T>) {
    forall i, j :: 0 <= i < j < |xs| ==> xs[i] != xs[j]
  }

  /** The distinct elements among the first `n` of `xs`, each kept where it first occurs. */
  function DedupTo<T(==)>(xs: seq<T>, n: nat): seq<T>
    requires n <= |xs|
  {
    if n == 0 then []
    else if xs[n - 1] in DedupTo(xs, n - 1) then DedupTo(xs, n - 1)
    else DedupTo(xs, n - 1) + [xs[n - 1]]
  }

  function Dedup<T(==)>(xs: seq<T>): seq<T> {
    DedupTo(xs, |xs|)
  }

  lemma {:induction false} DedupToMember<T>(xs: seq<T>, n: nat)
    requires n <= |xs|
    ensures NoDup(DedupTo(xs, n))
    ensures forall x :: x in DedupTo(xs, n) <==> exists i :: 0 <= i < n && xs[i] == x
  {
    if n > 0 { DedupToMember(xs, n - 1); }
  }

  lemma {:induction false} DedupMember<T>(xs: seq<T>)
    ensures NoDup(Dedup(xs))
    ensures forall x :: x in Dedup(xs) <==> x in xs
  {
    DedupToMember(xs, |xs|);
  }

  lemma {:induction false} DedupPrefix<T>(xs: seq<T>, ys: seq<T>, n: nat)
    requires n <= |xs|
    ensures DedupTo(xs + ys, n) == DedupTo(xs, n)
  {
    if n > 0 { DedupPrefix(xs, ys, n - 1); }
  }

  lemma {:induction false} DedupStep<T>(xs: seq<T>, x: T)
    ensures Dedup(xs + [x]) == if x in Dedup(xs) then Dedup(xs) else Dedup(xs) + [x]
  {
    DedupPrefix(xs, [x], |xs|);
  }

  lemma {:induction false} DedupSameTail<T>(xs: seq<T>, ys: seq<T>, tail: seq<T>)
    requires Dedup(xs) == Dedup(ys)
    ensures Dedup(xs + tail) == Dedup(ys + tail)
    decreases |tail|
  {
    if tail == [] {
      assert xs + tail == xs && ys + tail == ys;
    } else {
      var init, last := tail[..|tail| - 1], tail[|tail| - 1];
      DedupSameTail(xs, ys, init);
      assert xs + tail == (xs + init) + [last] && ys + tail == (ys + init) + [last];
      DedupStep(xs + init, last);
      DedupStep(ys + init, last);
    }
  }

  /** Pushing what is already there changes nothing. */
  lemma {:induction false} DedupAbsorbs<T>(xs: seq<T>, more: seq<T>)
    requires forall x :: x in more ==> x in xs
    ensures Dedup(xs + more) == Dedup(xs)
    decreases |more|
  {
    if more == [] {
      assert xs + more == xs;
    } else {
      var init, last := more[..|more| - 1], more[|more| - 1];
      DedupAbsorbs(xs, init);
      assert xs + more == (xs + init) + [last];
      DedupStep(xs + init, last);
      DedupMember(xs);
      assert last in more;
    }
  }

  /** What a loop over `xs` has pushed after `n` elements when it pushes `f(x)` for each in turn. */
  function CollectTo<S, T>(f: S -> seq<T>, xs: seq<S>, n: nat): seq<T>
    requires n <= |xs|
  {
    if n == 0 then [] else CollectTo(f, xs, n - 1) + f(xs[n - 1])
  }

  function Collect<S, T>(f: S -> seq<T>, xs: seq<S>): seq<T> {
    CollectTo(f, xs, |xs|)
  }

  /** The list `before` once a pass has handled the first `i` elements. */
  function After<S, T>(before: seq<T>, f: S -> seq<T>, xs: seq<S>, i: nat): seq<T>
    requires i <= |xs|
  {
    before + CollectTo(f, xs, i)
  }

  lemma {:induction false} AfterStep<S, T>(before: seq<T>, f: S -> seq<T>, xs: seq<S>, i: nat)
    requires i < |xs|
    ensures f(xs[i]) == [] ==> After(before, f, xs, i + 1) == After(before, f, xs, i)
    ensures After(before, f, xs, i + 1) == After(before, f, xs, i) + f(xs[i])
  {}

  lemma {:induction false} AfterEnds<S, T>(before: seq<T>, f: S -> seq<T>, xs: seq<S>)
    ensures After(before, f, xs, 0) == before
    ensures After(before, f, xs, |xs|) == before + Collect(f, xs)
  {}

  lemma {:induction false} CollectToMember<S, T>(f: S -> seq<T>, xs: seq<S>, n: nat, y: T)
    requires n <= |xs|
    ensures y in CollectTo(f, xs, n) <==> exists i :: 0 <= i < n && y in f(xs[i])
  {
    if n > 0 { CollectToMember(f, xs, n - 1, y); }
  }

  lemma {:induction false} CollectMember<S, T>(f: S -> seq<T>, xs: seq<S>, y: T)
    ensures y in Collect(f, xs) <==> exists i :: 0 <= i < |xs| && y in f(xs[i])
  {
    CollectToMember(f, xs, |xs|, y);
  }

  /** Elements that differ from one another, each giving distinct results of its own. */
  ghost predicate Disjointly<S, T(!new)>(f: S -> seq<T>, xs: seq<S>) {
    && (forall i {:trigger xs[i]} :: 0 <= i < |xs| ==> NoDup(f(xs[i])))
    && (forall i, j, y {:trigger y in f(xs[i]), y in f(xs[j])} ::
          0 <= i < j < |xs| && y in f(xs[i]) ==> y !in f(xs[j]))
  }

  lemma {:induction false} CollectDistinct<S, T(!new)>(f: S -> seq<T>, xs: seq<S>, n: nat)
    requires n <= |xs| && Disjointly(f, xs)
    ensures NoDup(CollectTo(f, xs, n))
  {
    if n > 0 {
      CollectDistinct(f, xs, n - 1);
      var below, more := CollectTo(f, xs, n - 1), f(xs[n - 1]);
      forall y | y in more ensures y !in below { CollectToMember(f, xs, n - 1, y); }
      NoDupJoin(below, more);
    }
  }

  lemma NoDupJoin<T>(xs: seq<T>, ys: seq<T>)
    requires NoDup(xs) && NoDup(ys) && forall y :: y in ys ==> y !in xs
    ensures NoDup(xs + ys)
  {
    var zs := xs + ys;
    forall i, j | 0 <= i < j < |zs| ensures zs[i] != zs[j] {
      if i < |xs| <= j { assert xs[i] in xs && ys[j - |xs|] in ys; }
    }
  }

  lemma {:induction false} CollectEmpty<S, T>(f: S -> seq<T>, xs: seq<S>, n: nat)
    requires n <= |xs|
    ensures CollectTo(f, xs, n) == [] <==> forall i {:trigger xs[i]} :: 0 <= i < n ==> f(xs[i]) == []
  {
    if n > 0 { CollectEmpty(f, xs, n - 1); }
  }

  function CountTo<T>(p: T -> bool, xs: seq<T>, n: nat): (r: nat)
    requires n <= |xs|
    ensures r <= n
  {
    if n == 0 then 0 else CountTo(p, xs, n - 1) + (if p(xs[n - 1]) then 1 else 0)
  }

  function Map<S, T>(f: S -> T, xs: seq<S>): (r: seq<T>)
    ensures |r| == |xs|
    ensures forall i :: 0 <= i < |xs| ==> r[i] == f(xs[i])
  {
    seq(|xs|, i requires 0 <= i < |xs| => f(xs[i]))
  }

  /** The first `n` of `new Map(xs.map(x => [key(x), x]))`: a later element replaces an earlier one with its key. */
  function ByKeyTo<T>(key: T -> int, xs: seq<T>, n: nat): map<int, T>
    requires n <= |xs|
  {
    if n == 0 then map[] else ByKeyTo(key, xs, n - 1)[key(xs[n - 1]) := xs[n - 1]]
  }

  function ByKey<T>(key: T -> int, xs: seq<T>): map<int, T> {
    ByKeyTo(key, xs, |xs|)
  }

  lemma {:induction false} ByKeyToMember<T>(key: T -> int, xs: seq<T>, n: nat)
    requires n <= |xs|
    ensures forall i :: 0 <= i < n ==> key(xs[i]) in ByKeyTo(key, xs, n)
    ensures forall k :: k in ByKeyTo(key, xs, n) ==>
              ByKeyTo(key, xs, n)[k] in xs && key(ByKeyTo(key, xs, n)[k]) == k
  {
    if n > 0 { ByKeyToMember(key, xs, n - 1); }
  }

  lemma ByKeyMember<T>(key: T -> int, xs: seq<T>)
    ensures forall x :: x in xs ==> key(x) in ByKey(key, xs)
    ensures forall k :: k in ByKey(key, xs) ==> ByKey(key, xs)[k] in xs && key(ByKey(key, xs)[k]) == k
  {
    ByKeyToMember(key, xs, |xs|);
  }

  lemma NoMembers<T>(xs: seq<T>)
    requires forall x :: x !in xs
    ensures xs == []
  {
    FirstMember(xs);
  }

  lemma FirstMember<T>(xs: seq<T>)
    ensures xs != [] ==> exists x :: x in xs
  {
    if xs != [] { assert xs[0] in xs; }
  }

  function Pow2(k: nat): (r: nat)
    ensures r > 0
  {
    if k == 0 then 1 else 2 * Pow2(k - 1)
  }

  // ----- results ---------------------------------------------------------------

  /** The first `n` elements mapped by `f`, or the first error among them. */
  function AllOkTo<S, T, E>(f: S -> Result<T, E>, xs: seq<S>, n: nat): Result<seq<T>, E>
    requires n <= |xs|
  {
    if n == 0 then Ok([])
    else match AllOkTo(f, xs, n - 1)
      case Err(e) => Err(e)
      case Ok(ys) => match f(xs[n - 1])
        case Err(e) => Err(e)
        case Ok(y) => Ok(ys + [y])
  }

  function AllOk<S, T, E>(f: S -> Result<T, E>, xs: seq<S>): Result<seq<T>, E> {
    AllOkTo(f, xs, |xs|)
  }

  /** Collecting an iterator of results: stops at the first error. */
  method CollectOk<S, T, E>(f: S -> Result<T, E>, xs: seq<S>) returns (r: Result<seq<T>, E>)
    ensures r == AllOk(f, xs)
  {
    var ys: seq<T> := [];
    for i := 0 to |xs|
      invariant AllOkTo(f, xs, i) == Ok(ys)
    {
      var y := f(xs[i]);
      if y.Err? {
        ErrorStays(f, xs, i, |xs|);
        return Err(y.error);
      }
      ys := ys + [y.value];
    }
    return Ok(ys);
  }

  lemma {:induction false} ErrorStays<S, T, E>(f: S -> Result<T, E>, xs: seq<S>, i: nat, n: nat)
    requires i < n <= |xs| && AllOkTo(f, xs, i).Ok? && f(xs[i]).Err?
    ensures AllOkTo(f, xs, n) == Err(f(xs[i]).error)
    decreases n
  {
    if i < n - 1 { ErrorStays(f, xs, i, n - 1); }
  }

  lemma {:induction false} AllOkIs<S, T, E>(f: S -> Result<T, E>, xs: seq<S>, n: nat)
    requires n <= |xs|
    ensures AllOkTo(f, xs, n).Ok? <==> forall i {:trigger xs[i]} :: 0 <= i < n ==> f(xs[i]).Ok?
    ensures AllOkTo(f, xs, n).Ok? ==> |AllOkTo(f, xs, n).value| == n
    ensures AllOkTo(f, xs, n).Ok? ==> forall i {:trigger xs[i]} :: 0 <= i < n ==> f(xs[i]) == Ok(AllOkTo(f, xs, n).value[i])
  {
    if n > 0 { AllOkIs(f, xs, n - 1); }
  }

  lemma AllOkAs<S, T, E>(f: S -> Result<T, E>, xs: seq<S>, ys: seq<T>)
    requires |xs| == |ys| && forall i {:trigger xs[i]} {:trigger ys[i]} :: 0 <= i < |xs| ==> f(xs[i]) == Ok(ys[i])
    ensures AllOk(f, xs) == Ok(ys)
  {
    AllOkIs(f, xs, |xs|);
    var zs := AllOk(f, xs).value;
    forall i | 0 <= i < |xs| ensures zs[i] == ys[i] { assert f(xs[i]) == Ok(zs[i]); }
    assert zs == ys;
  }

  // ----- tables -----------------------------------------------------------------

  /** The table `m` once the first `n` entries have been saved in turn. */
  function SavedTo<K, V>(m: map<K, V>, entries: seq<(K, V)>, n: nat): map<K, V>
    requires n <= |entries|
  {
    if n == 0 then m else SavedTo(m, entries, n - 1)[entries[n - 1].0 := entries[n - 1].1]
  }

  function Saved<K, V>(m: map<K, V>, entries: seq<(K, V)>): map<K, V> {
    SavedTo(m, entries, |entries|)
  }

  lemma {:induction false} SavedPrefix<K, V>(m: map<K, V>, entries: seq<(K, V)>, more: seq<(K, V)>, n: nat)
    requires n <= |entries|
    ensures SavedTo(m, entries + more, n) == SavedTo(m, entries, n)
  {
    if n > 0 { SavedPrefix(m, entries, more, n - 1); }
  }

  lemma SavedStep<K, V>(m: map<K, V>, entries: seq<(K, V)>, k: K, v: V)
    ensures Saved(m, entries + [(k, v)]) == Saved(m, entries)[k := v]
  {
    SavedPrefix(m, entries, [(k, v)], |entries|);
  }

  // ----- counting -------------------------------------------------------------

  function Elements<T>(xs: seq<T>): set<T> {
    set x | x in xs
  }

  lemma {:induction false} DistinctCount<T>(xs: seq<T>)
    ensures |Elements(xs)| <= |xs|
    ensures |Elements(xs)| == |xs| <==> NoDup(xs)
  {
    if xs != [] {
      var init, last := xs[..|xs| - 1], xs[|xs| - 1];
      assert xs == init + [last];
      DistinctCount(init);
      assert Elements(xs) == Elements(init) + {last};
      if NoDup(xs) {
        forall i | 0 <= i < |init| ensures init[i] != last { assert xs[i] == init[i]; }
        assert last !in Elements(init);
      }
    }
  }

  lemma {:induction false} NoDupMultiplicity<T>(xs: seq<T>, x: T)
    requires NoDup(xs)
    ensures multiset(xs)[x] == if x in xs then 1 else 0
  {
    if xs != [] {
      var init, last := xs[..|xs| - 1], xs[|xs| - 1];
      assert xs == init + [last];
      assert multiset(xs) == multiset(init) + multiset{last};
      NoDupMultiplicity(init, x);
    }
  }

  lemma SameElements<T>(xs: seq<T>, ys: seq<T>)
    requires NoDup(xs) && NoDup(ys)
    requires forall x :: x in xs <==> x in ys
    ensures multiset(xs) == multiset(ys)
    ensures |xs| == |ys|
  {
    forall x | true ensures multiset(xs)[x] == multiset(ys)[x] {
      NoDupMultiplicity(xs, x);
      NoDupMultiplicity(ys, x);
    }
    assert multiset(xs) == multiset(ys);
    assert |multiset(xs)| == |xs| && |multiset(ys)| == |ys|;
  }

  lemma MapConcat<S, T>(f: S -> T, xs: seq<S>, ys: seq<S>)
    ensures Map(f, xs + ys) == Map(f, xs) + Map(f, ys)
  {}

  /** Element `k` taken out: the rest of the multiset, and the rest of the images. */
  lemma TakeOut<S, T>(f: S -> T, xs: seq<S>, k: nat) returns (rest: seq<S>)
    requires k < |xs|
    ensures |rest| == |xs| - 1
    ensures multiset(xs) == multiset(rest) + multiset{xs[k]}
    ensures multiset(Map(f, xs)) == multiset(Map(f, rest)) + multiset{f(xs[k])}
  {
    var front, back := xs[..k], xs[k + 1..];
    rest := front + back;
    assert xs == (front + [xs[k]]) + back;
    MapConcat(f, front, back);
    MapConcat(f, front, [xs[k]]);
    MapConcat(f, front + [xs[k]], back);
    assert Map(f, [xs[k]]) == [f(xs[k])];
  }

  /** A rearrangement of the arguments rearranges the images. */
  lemma {:induction false} MapPermutes<S, T>(f: S -> T, xs: seq<S>, ys: seq<S>)
    requires multiset(xs) == multiset(ys)
    ensures multiset(Map(f, xs)) == multiset(Map(f, ys))
    decreases |xs|
  {
    assert |multiset(xs)| == |xs| && |multiset(ys)| == |ys|;
    if xs != [] {
      var xs' := TakeOut(f, xs, 0);
      assert xs[0] in multiset(ys);
      var k :| 0 <= k < |ys| && ys[k] == xs[0];
      var ys' := TakeOut(f, ys, k);
      assert multiset(xs') == multiset(xs) - multiset{xs[0]} == multiset(ys');
      MapPermutes(f, xs', ys');
    }
  }

  // ----- sums over tables -----------------------------------------------------

  ghost function SumOver<K, V>(f: V -> nat, m: map<K, V>): nat
    decreases |m|
  {
    if m == map[] then 0 else var k :| k in m; f(m[k]) + SumOver(f, m - {k})
  }

  lemma {:induction false} SumSplit<K, V>(f: V -> nat, m: map<K, V>, k: K)
    requires k in m
    ensures SumOver(f, m) == f(m[k]) + SumOver(f, m - {k})
    decreases |m|
  {
    var c :| c in m && SumOver(f, m) == f(m[c]) + SumOver(f, m - {c});
    if c != k {
      SumSplit(f, m - {c}, k);
      SumSplit(f, m - {k}, c);
      assert m - {c} - {k} == m - {k} - {c};
    }
  }

  lemma {:induction false} SumUpdate<K, V>(f: V -> nat, m: map<K, V>, k: K, v: V)
    ensures SumOver(f, m[k := v]) == f(v) + SumOver(f, m) - (if k in m then f(m[k]) else 0)
  {
    var m' := m[k := v];
    SumSplit(f, m', k);
    if k in m {
      SumSplit(f, m, k);
      assert m' - {k} == m - {k};
    } else {
      assert m' - {k} == m;
    }
  }

  // ----- sorting ----------------------------------------------------------------

  ghost predicate TotalPreorder<T(!new)>(le: (T, T) -> bool) {
    && (forall x, y :: le(x, y) || le(y, x))
    && (forall x, y, z :: le(x, y) && le(y, z) ==> le(x, z))
  }

  ghost predicate SortedBy<T>(le: (T, T) -> bool, xs: seq<T>) {
    forall i, j :: 0 <= i < j < |xs| ==> le(xs[i], xs[j])
  }

  lemma {:induction false} SortedJoin<T(!new)>(le: (T, T) -> bool, a: seq<T>, b: seq<T>)
    requires SortedBy(le, a) && SortedBy(le, b) && forall x, y :: x in a && y in b ==> le(x, y)
    ensures SortedBy(le, a + b)
  {
    var c := a + b;
    forall i, j | 0 <= i < j < |c| ensures le(c[i], c[j]) {
      if j < |a| { assert le(a[i], a[j]); }
      else if i < |a| { assert c[i] in a && c[j] in b; }
      else { assert le(b[i - |a|], b[j - |a|]); }
    }
  }

  function Insert<T>(le: (T, T) -> bool, xs: seq<T>, x: T): seq<T> {
    if xs == [] || le(xs[|xs| - 1], x) then xs + [x]
    else Insert(le, xs[..|xs| - 1], x) + [xs[|xs| - 1]]
  }

  /** The library sort both programs call: stable, in the order `le`. */
  function Sort<T>(le: (T, T) -> bool, xs: seq<T>): seq<T> {
    if xs == [] then [] else Insert(le, Sort(le, xs[..|xs| - 1]), xs[|xs| - 1])
  }

  lemma {:induction false} InsertKeeps<T>(le: (T, T) -> bool, xs: seq<T>, x: T)
    ensures multiset(Insert(le, xs, x)) == multiset(xs) + multiset{x}
    ensures forall y :: y in Insert(le, xs, x) <==> y in xs || y == x
  {
    if xs != [] && !le(xs[|xs| - 1], x) {
      var init, last := xs[..|xs| - 1], xs[|xs| - 1];
      assert xs == init + [last];
      InsertKeeps(le, init, x);
    }
  }

  lemma {:induction false} InsertSorts<T(!new)>(le: (T, T) -> bool, xs: seq<T>, x: T)
    requires TotalPreorder(le) && SortedBy(le, xs)
    ensures SortedBy(le, Insert(le, xs, x))
  {
    if xs != [] && !le(xs[|xs| - 1], x) {
      var init, last := xs[..|xs| - 1], xs[|xs| - 1];
      InsertSorts(le, init, x);
      InsertKeeps(le, init, x);
      var r := Insert(le, init, x);
      forall i | 0 <= i < |r| ensures le(r[i], last) {
        assert r[i] in r;
        if r[i] != x { var j :| 0 <= j < |init| && init[j] == r[i]; assert le(xs[j], xs[|xs| - 1]); }
      }
    }
  }

  lemma {:induction false} SortSorts<T(!new)>(le: (T, T) -> bool, xs: seq<T>)
    requires TotalPreorder(le)
    ensures SortedBy(le, Sort(le, xs))
    ensures multiset(Sort(le, xs)) == multiset(xs)
    ensures |Sort(le, xs)| == |xs|
    ensures forall y :: y in Sort(le, xs) <==> y in xs
  {
    if xs != [] {
      var init, last := xs[..|xs| - 1], xs[|xs| - 1];
      assert xs == init + [last];
      SortSorts(le, init);
      InsertKeeps(le, Sort(le, init), last);
      InsertSorts(le, Sort(le, init), last);
      assert |multiset(Sort(le, xs))| == |Sort(le, xs)| && |multiset(xs)| == |xs|;
    }
  }

  function ByIntKey<T>(key: T -> int): (T, T) -> bool {
    (x, y) => key(x) <= key(y)
  }

  lemma IntKeyOrders<T(!new)>(key: T -> int)
    ensures TotalPreorder(ByIntKey(key))
  {}

  ghost predicate Increasing<T>(key: T -> int, xs: seq<T>) {
    forall i, j :: 0 <= i < j < |xs| ==> key(xs[i]) < key(xs[j])
  }

  /** Sorting by a key: the order is strict exactly if no two elements share a key. */
  lemma {:induction false} SortIncreases<T(!new)>(key: T -> int, xs: seq<T>)
    ensures var sorted := Sort(ByIntKey(key), xs);
            && multiset(sorted) == multiset(xs) && |sorted| == |xs| && SortedBy(ByIntKey(key), sorted)
            && (forall x :: x in sorted <==> x in xs)
            && (NoDup(Map(key, xs)) <==> Increasing(key, sorted))
  {
    var sorted := Sort(ByIntKey(key), xs);
    IntKeyOrders(key);
    SortSorts(ByIntKey(key), xs);
    MapPermutes(key, sorted, xs);
    var a, b := Map(key, sorted), Map(key, xs);
    forall x ensures x in a <==> x in b { assert x in multiset(a) <==> x in multiset(b); }
    assert Elements(a) == Elements(b);
    DistinctCount(a);
    DistinctCount(b);
    if NoDup(a) {
      forall i, j | 0 <= i < j < |sorted| ensures key(sorted[i]) < key(sorted[j]) {
        assert ByIntKey(key)(sorted[i], sorted[j]) && a[i] != a[j];
      }
    }
    if Increasing(key, sorted) {
      forall i, j | 0 <= i < j < |a| ensures a[i] != a[j] { assert key(sorted[i]) < key(sorted[j]); }
    }
  }

  /** Strictly increasing sequences with the same elements are the same sequence. */
  lemma {:induction false} IncreasingUnique<T>(key: T -> int, xs: seq<T>, ys: seq<T>)
    requires Increasing(key, xs) && Increasing(key, ys)
    requires |xs| == |ys|
    requires forall x :: x in xs <==> x in ys
    ensures xs == ys
    decreases |xs|
  {
    if xs != [] {
      assert xs[|xs| - 1] in ys;
      var n, m := |xs| - 1, |ys| - 1;
      assert ys[m] in xs;
      var i :| 0 <= i < |xs| && xs[i] == ys[m];
      var j :| 0 <= j < |ys| && ys[j] == xs[n];
      assert i == n && j == m;
      forall x ensures x in xs[..n] <==> x in ys[..m] {
        if x in xs[..n] { assert x in ys && key(x) < key(xs[n]); }
        if x in ys[..m] { assert x in xs && key(x) < key(ys[m]); }
      }
      IncreasingUnique(key, xs[..n], ys[..m]);
      assert xs == xs[..n] + [xs[n]] && ys == ys[..m] + [ys[m]];
    }
  }

  ghost predicate Ascending(xs: seq<int>) {
    forall i, j :: 0 <= i < j < |xs| ==> xs[i] < xs[j]
  }

  /** An ascending sequence of naturals without holes counts from 0. */
  lemma {:induction false} AscendingFromZero(xs: seq<int>, i: nat)
    requires Ascending(xs) && i < |xs| && xs[0] >= 0
    requires forall k :: 0 <= k < xs[|xs| - 1] ==> k in xs
    ensures xs[i] == i
  {
    if i > 0 { AscendingFromZero(xs, i - 1); }
    assert xs[i] >= i;
    if xs[i] > i {
      assert xs[i] <= xs[|xs| - 1];
      assert i in xs;
    }
  }
}
