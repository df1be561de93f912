/** Which leaves have a root the contract recorded. */
module RecordedRoots {
  import opened Basics
  import opened ByteCodec
  import opened Merkle
  import opened MerkleShape
  import opened BondMapping
  import opened BondLog
  import opened BondContract
  import opened FieldHex
  import opened BondReplay

  function Numbers(words: seq<Digest>): (r: seq<Fr>)
    ensures |r| == |words|
  {
    Map(WordNumber(), words)
  }

  /** `leaves` are the same tree as the array after call `r`, as far as the lower one goes. */
  ghost predicate SameTreeAfter(h: PairHash<Fr>, calls: seq<BondCall>, words: seq<Digest>, leaves: seq<Fr>, r: nat)
    requires leaves != [] && r < |calls|
  {
    0 < CountsLog(calls)[r] <= |words| && SameTree(h, leaves, Numbers(words)[..CountsLog(calls)[r]])
  }

  ghost predicate TreeRecorded(h: PairHash<Fr>, calls: seq<BondCall>, words: seq<Digest>, leaves: seq<Fr>)
    requires leaves != []
  {
    exists r: nat :: r < |calls| && SameTreeAfter(h, calls, words, leaves, r)
  }

  /** No two pairs hashed, for these leaves and for what the contract recorded, collide. */
  ghost predicate UncollidedWith(h: PairHash<Fr>, calls: seq<BondCall>, words: seq<Digest>, leaves: seq<Fr>) {
    forall r: nat {:trigger CountsLog(calls)[r]} :: r < |calls| && CountsLog(calls)[r] <= |words| ==>
      NoCollisions(h, Hashed(h, leaves) + Hashed(h, Numbers(words)[..CountsLog(calls)[r]]))
  }

  lemma {:induction false} SameWord(f: Fr, g: Fr)
    ensures Word(f) == Word(g) <==> f == g
  {
    WordInField(f);
    WordInField(g);
  }

  lemma {:induction false} RecordedAfter(h: PairHash<Fr>, calls: seq<BondCall>, c: Contract, leaves: seq<Fr>, r: nat)
    requires Played(WordHash(h), calls, |calls|) == Some(c) && InField(c.commitments)
    requires leaves != [] && UncollidedWith(h, calls, c.commitments, leaves) && r < |calls|
    ensures r < |c.roots|
    ensures c.roots[r] == Word(Root(h, leaves)) <==> SameTreeAfter(h, calls, c.commitments, leaves, r)
  {
    RebuiltAt(h, calls, c, r);
    var recorded := Numbers(c.commitments)[..CountsLog(calls)[r]];
    SameRootExactly(h, leaves, recorded);
    SameWord(Root(h, leaves), Root(h, recorded));
  }

  /** The root of some leaves was recorded exactly if they are the same tree as a recorded state of the array. */
  lemma {:induction false} RecordedExactly(h: PairHash<Fr>, calls: seq<BondCall>, c: Contract, leaves: seq<Fr>)
    requires Played(WordHash(h), calls, |calls|) == Some(c) && InField(c.commitments)
    requires leaves != [] && UncollidedWith(h, calls, c.commitments, leaves)
    ensures Word(Root(h, leaves)) in c.roots <==> TreeRecorded(h, calls, c.commitments, leaves)
  {
    hide Played, UncollidedWith, SameTreeAfter, Root;
    LeavesAreCommitments(WordHash(h), calls, |calls|);
    forall r: nat | r < |calls|
      ensures c.roots[r] == Word(Root(h, leaves)) <==> SameTreeAfter(h, calls, c.commitments, leaves, r)
    {
      RecordedAfter(h, calls, c, leaves, r);
    }
  }

  // ----- leaves that are no nodes --------------------------------------------------------------

  /** Nor is a leaf on one side a node on the other. */
  ghost predicate UnmixedWith(h: PairHash<Fr>, calls: seq<BondCall>, words: seq<Digest>, leaves: seq<Fr>) {
    forall r: nat {:trigger CountsLog(calls)[r]} :: r < |calls| && CountsLog(calls)[r] <= |words| ==>
      Unmixed(h, leaves, Numbers(words)[..CountsLog(calls)[r]])
  }

  lemma UnmixedIsUncollided(h: PairHash<Fr>, calls: seq<BondCall>, words: seq<Digest>, leaves: seq<Fr>)
    requires UnmixedWith(h, calls, words, leaves)
    ensures UncollidedWith(h, calls, words, leaves)
  {}

  /** `leaves` and the array after call `r` have the same tree height and the same leaf at every position of it. */
  ghost predicate AlikeAfter(calls: seq<BondCall>, words: seq<Digest>, leaves: seq<Fr>, r: nat)
    requires leaves != [] && r < |calls|
  {
    0 < CountsLog(calls)[r] <= |words| && Alike(leaves, Numbers(words)[..CountsLog(calls)[r]])
  }

  /** Which needs nothing of the hash: the leaves are a recorded state of the array, up to mirrored leaves. */
  ghost predicate LeavesRecorded(calls: seq<BondCall>, words: seq<Digest>, leaves: seq<Fr>)
    requires leaves != []
  {
    exists r: nat :: r < |calls| && AlikeAfter(calls, words, leaves, r)
  }

  lemma UnmixedRecorded(h: PairHash<Fr>, calls: seq<BondCall>, words: seq<Digest>, leaves: seq<Fr>)
    requires leaves != [] && UnmixedWith(h, calls, words, leaves)
    ensures TreeRecorded(h, calls, words, leaves) <==> LeavesRecorded(calls, words, leaves)
  {
    hide SameTree, Alike, Unmixed;
    forall r: nat | r < |calls| ensures SameTreeAfter(h, calls, words, leaves, r) <==> AlikeAfter(calls, words, leaves, r) {
      if 0 < CountsLog(calls)[r] <= |words| { UnmixedSameTree(h, leaves, Numbers(words)[..CountsLog(calls)[r]]); }
    }
  }

  // ----- prefixes of the array ---------------------------------------------------------------------

  /** Some call left the array at this length. */
  ghost predicate IsBoundary(calls: seq<BondCall>, total: nat) {
    exists j :: 0 < j <= |calls| && total == |LeafLog(calls, j)|
  }

  /** At a call boundary the root was recorded, whatever the hash. */
  lemma {:induction false} BoundaryRoot(h: PairHash<Fr>, calls: seq<BondCall>, c: Contract, total: nat)
    requires Played(WordHash(h), calls, |calls|) == Some(c) && InField(c.commitments)
    requires IsBoundary(calls, total) && 0 < total <= |c.commitments|
    ensures Word(Root(h, Numbers(c.commitments)[..total])) in c.roots
  {
    var j :| 0 < j <= |calls| && total == |LeafLog(calls, j)|;
    RebuiltAt(h, calls, c, j - 1);
    assert CountsLog(calls)[j - 1] == total;
    assert c.roots[j - 1] in c.roots;
  }

  /** A prefix at a call boundary is a recorded state; where no two commitments are equal, no other prefix is. */
  lemma {:induction false} PrefixRecorded(calls: seq<BondCall>, words: seq<Digest>, total: nat)
    requires 0 < total <= |words|
    ensures IsBoundary(calls, total) ==> LeavesRecorded(calls, words, Numbers(words)[..total])
    ensures NoDup(Numbers(words)) && LeavesRecorded(calls, words, Numbers(words)[..total]) ==> IsBoundary(calls, total)
  {
    hide LeafLog;
    var leaves := Numbers(words)[..total];
    if IsBoundary(calls, total) {
      var j :| 0 < j <= |calls| && total == |LeafLog(calls, j)|;
      assert CountsLog(calls)[j - 1] == total;
      AlikeItself(leaves);
      assert AlikeAfter(calls, words, leaves, j - 1);
    }
    if NoDup(Numbers(words)) && LeavesRecorded(calls, words, leaves) {
      var r: nat :| r < |calls| && AlikeAfter(calls, words, leaves, r);
      DistinctPrefixes(Numbers(words), total, CountsLog(calls)[r]);
      assert CountsLog(calls)[r] == |LeafLog(calls, r + 1)|;
    }
  }

  lemma AlikeItself<F>(xs: seq<F>)
    requires xs != []
    ensures Alike(xs, xs)
  {
    forall i: nat | i < Pow2(Height(|xs|)) ensures AlikeAt(xs, xs, i) {}
  }

  /** Without equal leaves, prefixes of different lengths are not alike: the shorter mirrors a leaf where the longer has
      one of its own. */
  lemma {:induction false} DistinctPrefixes<F>(xs: seq<F>, m: nat, n: nat)
    requires 0 < m <= |xs| && 0 < n <= |xs| && NoDup(xs) && Alike(xs[..m], xs[..n])
    ensures m == n
  {
    if m < n {
      LongerStands(xs, m, n);
    } else if n < m {
      AlikeSymmetric(xs[..m], xs[..n]);
      LongerStands(xs, n, m);
    }
  }

  lemma LongerStands<F>(xs: seq<F>, m: nat, n: nat)
    requires 0 < m < n <= |xs| && NoDup(xs)
    ensures !Alike(xs[..m], xs[..n])
  {
    StandsItself(n, m);
    var k := Standing(m, m);
    assert xs[k] != xs[m];
    assert !AlikeAt(xs[..m], xs[..n], m);
    assert n <= Pow2(Height(n));
  }

  // ----- a replay of the array ------------------------------------------------------------------------

  /** `roots` are the roots of the array's prefixes at `totals`. */
  ghost predicate Replays(h: PairHash<Fr>, words: seq<Digest>, totals: seq<nat>, roots: seq<Fr>) {
    && |roots| == |totals|
    && forall i {:trigger totals[i]} {:trigger roots[i]} :: 0 <= i < |totals| ==>
         0 < totals[i] <= |words| && roots[i] == Root(h, Numbers(words)[..totals[i]])
  }

  /** The contract recorded all of them. */
  ghost predicate AllIn(roots: seq<Fr>, recorded: seq<Digest>) {
    forall i {:trigger roots[i]} :: 0 <= i < |roots| ==> Word(roots[i]) in recorded
  }

  /** Every total is one some call left. */
  ghost predicate AllBoundaries(calls: seq<BondCall>, totals: seq<nat>) {
    forall i {:trigger totals[i]} :: 0 <= i < |totals| ==> IsBoundary(calls, totals[i])
  }

  ghost predicate UncollidedAt(h: PairHash<Fr>, calls: seq<BondCall>, words: seq<Digest>, totals: seq<nat>) {
    forall i {:trigger totals[i]} :: 0 <= i < |totals| && totals[i] <= |words| ==>
      UncollidedWith(h, calls, words, Numbers(words)[..totals[i]])
  }

  ghost predicate UnmixedAt(h: PairHash<Fr>, calls: seq<BondCall>, words: seq<Digest>, totals: seq<nat>) {
    forall i {:trigger totals[i]} :: 0 <= i < |totals| && totals[i] <= |words| ==>
      UnmixedWith(h, calls, words, Numbers(words)[..totals[i]])
  }

  /** At every total the array's prefix is the same tree as a recorded state. */
  ghost predicate TreesRecordedAt(h: PairHash<Fr>, calls: seq<BondCall>, words: seq<Digest>, totals: seq<nat>) {
    forall i {:trigger totals[i]} :: 0 <= i < |totals| ==>
      0 < totals[i] <= |words| && TreeRecorded(h, calls, words, Numbers(words)[..totals[i]])
  }

  /** At every total the array's prefix is a recorded state, up to mirrored leaves. */
  ghost predicate LeavesRecordedAt(calls: seq<BondCall>, words: seq<Digest>, totals: seq<nat>) {
    forall i {:trigger totals[i]} :: 0 <= i < |totals| ==>
      0 < totals[i] <= |words| && LeavesRecorded(calls, words, Numbers(words)[..totals[i]])
  }

  lemma {:induction false} BoundariesRecorded(h: PairHash<Fr>, calls: seq<BondCall>, c: Contract, totals: seq<nat>, roots: seq<Fr>)
    requires Played(WordHash(h), calls, |calls|) == Some(c) && InField(c.commitments)
    requires Replays(h, c.commitments, totals, roots)
    ensures forall i {:trigger roots[i]} :: 0 <= i < |roots| && IsBoundary(calls, totals[i]) ==> Word(roots[i]) in c.roots
  {
    hide Played, IsBoundary, Root;
    forall i | 0 <= i < |roots| && IsBoundary(calls, totals[i]) ensures Word(roots[i]) in c.roots {
      BoundaryRoot(h, calls, c, totals[i]);
    }
  }

  lemma {:induction false} TreesRecordedExactly(h: PairHash<Fr>, calls: seq<BondCall>, c: Contract, totals: seq<nat>, roots: seq<Fr>)
    requires Played(WordHash(h), calls, |calls|) == Some(c) && InField(c.commitments)
    requires Replays(h, c.commitments, totals, roots) && UncollidedAt(h, calls, c.commitments, totals)
    ensures AllIn(roots, c.roots) <==> TreesRecordedAt(h, calls, c.commitments, totals)
  {
    hide Played, UncollidedWith, TreeRecorded, Root;
    forall i | 0 <= i < |totals|
      ensures 0 < totals[i] <= |c.commitments|
      ensures Word(roots[i]) in c.roots <==> TreeRecorded(h, calls, c.commitments, Numbers(c.commitments)[..totals[i]])
    {
      RecordedExactly(h, calls, c, Numbers(c.commitments)[..totals[i]]);
    }
  }

  lemma {:induction false} LeavesRecordedExactly(h: PairHash<Fr>, calls: seq<BondCall>, words: seq<Digest>, totals: seq<nat>)
    requires UnmixedAt(h, calls, words, totals)
    requires forall i {:trigger totals[i]} :: 0 <= i < |totals| ==> 0 < totals[i] <= |words|
    ensures UncollidedAt(h, calls, words, totals)
    ensures TreesRecordedAt(h, calls, words, totals) <==> LeavesRecordedAt(calls, words, totals)
    ensures AllBoundaries(calls, totals) ==> LeavesRecordedAt(calls, words, totals)
    ensures NoDup(Numbers(words)) ==> (LeavesRecordedAt(calls, words, totals) <==> AllBoundaries(calls, totals))
  {
    hide UnmixedWith, UncollidedWith, TreeRecorded, LeavesRecorded, IsBoundary, NoDup;
    forall i | 0 <= i < |totals|
      ensures UncollidedWith(h, calls, words, Numbers(words)[..totals[i]])
      ensures TreeRecorded(h, calls, words, Numbers(words)[..totals[i]]) <==>
                LeavesRecorded(calls, words, Numbers(words)[..totals[i]])
      ensures IsBoundary(calls, totals[i]) ==> LeavesRecorded(calls, words, Numbers(words)[..totals[i]])
      ensures NoDup(Numbers(words)) && LeavesRecorded(calls, words, Numbers(words)[..totals[i]]) ==> IsBoundary(calls, totals[i])
    {
      UnmixedIsUncollided(h, calls, words, Numbers(words)[..totals[i]]);
      UnmixedRecorded(h, calls, words, Numbers(words)[..totals[i]]);
      PrefixRecorded(calls, words, totals[i]);
    }
  }
}
