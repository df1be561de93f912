/** The contract's Merkle root, rebuilt from the leaves: replay/src/merkle.rs. */
module Merkle {
  import opened Basics

  type PairHash<!F> = (F, F) -> F

  // ----- the loop, as a function ------------------------------------------------

  /** One pass: neighbours hashed in pairs, an unpaired last node hashed with itself. */
  function Level<F>(h: PairHash<F>, nodes: seq<F>): (r: seq<F>)
    ensures |r| == (|nodes| + 1) / 2
  {
    seq((|nodes| + 1) / 2, i requires 0 <= i < (|nodes| + 1) / 2 => Pair(h, nodes, 2 * i))
  }

  function Pair<F>(h: PairHash<F>, nodes: seq<F>, i: nat): F
    requires i < |nodes|
  {
    h(nodes[i], if i + 1 < |nodes| then nodes[i + 1] else nodes[i])
  }

  /** The root of a log, by level. */
  function Root<F>(h: PairHash<F>, leaves: seq<F>): F
    requires leaves != []
    decreases |leaves|
  {
    if |leaves| == 1 then leaves[0] else Root(h, Level(h, leaves))
  }

  // ----- the methods ---------------------------------------------------------------

  datatype MerkleError = NoCommitments | CountOutOfRange(count: nat)

  method BuildMerkleRoot<F>(h: PairHash<F>, leaves: seq<F>) returns (r: Result<F, MerkleError>)
    ensures leaves == [] ==> r == Err(NoCommitments)
    ensures leaves != [] ==> r == Ok(Root(h, leaves))
  {
    if leaves == [] { return Err(NoCommitments); }
    var current := leaves;
    while |current| > 1
      invariant current != [] && Root(h, current) == Root(h, leaves)
      decreases |current|
    {
      var next: seq<F> := [];
      var i := 0;
      while i < |current|
        invariant i == 2 * |next| && i <= |current| + 1
        invariant next == Level(h, current)[..|next|]
      {
        var left := current[i];
        var right := if i + 1 < |current| then current[i + 1] else left;
        assert Level(h, current)[|next|] == h(left, right);
        next := next + [h(left, right)];
        i := i + 2;
      }
      assert next == Level(h, current);
      current := next;
    }
    return Ok(current[0]);
  }

  ghost predicate InRange(counts: seq<nat>, n: nat) {
    forall i :: 0 <= i < |counts| ==> 0 < counts[i] <= n
  }

  /** One root a call, each over the prefix of the log that call left behind. */
  method RootHistory<F>(h: PairHash<F>, leaves: seq<F>, counts: seq<nat>) returns (r: Result<seq<F>, MerkleError>)
    ensures r.Ok? <==> InRange(counts, |leaves|)
    ensures r.Ok? ==> |r.value| == |counts| && forall i :: 0 <= i < |counts| ==> r.value[i] == Root(h, leaves[..counts[i]])
    ensures r.Err? ==> exists i :: 0 <= i < |counts| && r.error == CountOutOfRange(counts[i])
  {
    var roots: seq<F> := [];
    for i := 0 to |counts|
      invariant |roots| == i && InRange(counts[..i], |leaves|)
      invariant forall k :: 0 <= k < i ==> roots[k] == Root(h, leaves[..counts[k]])
    {
      assert counts[i] == counts[..i + 1][i];
      if counts[i] == 0 || counts[i] > |leaves| { return Err(CountOutOfRange(counts[i])); }
      var root := BuildMerkleRoot(h, leaves[..counts[i]]);
      roots := roots + [root.value];
    }
    assert counts[..|counts|] == counts;
    return Ok(roots);
  }

  // ----- the same root, top down -------------------------------------------------------

  /** A tree of the given height: the left half is full, and a half that has no leaves mirrors its sibling. */
  function Tree<F>(h: PairHash<F>, leaves: seq<F>, height: nat): F
    requires 0 < |leaves| <= Pow2(height)
  {
    if height == 0 then leaves[0]
    else
      var half := Pow2(height - 1);
      if |leaves| <= half then h(Tree(h, leaves, height - 1), Tree(h, leaves, height - 1))
      else h(Tree(h, leaves[..half], height - 1), Tree(h, leaves[half..], height - 1))
  }

  /** The least height that holds `n` leaves. */
  function Height(n: nat): (r: nat)
    requires n > 0
    ensures n <= Pow2(r) && (r > 0 ==> Pow2(r - 1) < n)
  {
    if n == 1 then 0 else Height((n + 1) / 2) + 1
  }

  /** The least logs: one leaf is its own root, two are hashed in order, and a third is hashed with itself on the right. */
  lemma SmallRoots<F>(h: PairHash<F>, a: F, b: F, c: F)
    ensures Root(h, [a]) == a && Root(h, [a, b]) == h(a, b) && Root(h, [a, b, c]) == h(h(a, b), h(c, c))
  {
    assert Level(h, [a, b]) == [h(a, b)];
    assert Level(h, [a, b, c]) == [h(a, b), h(c, c)];
    assert Level(h, [h(a, b), h(c, c)]) == [h(h(a, b), h(c, c))];
    assert Root(h, [a, b, c]) == Root(h, [h(a, b), h(c, c)]) == Root(h, [h(h(a, b), h(c, c))]);
  }

  lemma LevelSplits<F>(h: PairHash<F>, left: seq<F>, right: seq<F>)
    requires |left| % 2 == 0
    ensures Level(h, left + right) == Level(h, left) + Level(h, right)
  {
    var all, parts, m := Level(h, left + right), Level(h, left) + Level(h, right), |left| / 2;
    forall i | 0 <= i < |all| ensures all[i] == parts[i] {
      if i >= m { assert Pair(h, left + right, 2 * i) == Pair(h, right, 2 * (i - m)); }
    }
  }

  lemma LevelHalves<F>(h: PairHash<F>, leaves: seq<F>, quarter: nat)
    requires 2 * quarter < |leaves|
    ensures |Level(h, leaves)| > quarter
    ensures Level(h, leaves)[..quarter] == Level(h, leaves[..2 * quarter])
    ensures Level(h, leaves)[quarter..] == Level(h, leaves[2 * quarter..])
  {
    assert leaves == leaves[..2 * quarter] + leaves[2 * quarter..];
    LevelSplits(h, leaves[..2 * quarter], leaves[2 * quarter..]);
  }

  /** Hashing one level lowers the tree by one. */
  lemma {:induction false} TreeOfLevel<F>(h: PairHash<F>, leaves: seq<F>, height: nat)
    requires 0 < |leaves| <= 2 * Pow2(height)
    ensures Tree(h, leaves, height + 1) == Tree(h, Level(h, leaves), height)
  {
    if height == 0 {
      assert Pow2(0) == 1;
      if |leaves| == 2 { assert leaves[..1][0] == leaves[0] && leaves[1..][0] == leaves[1]; }
    } else {
      var quarter := Pow2(height - 1);
      if |leaves| <= 2 * quarter {
        TreeOfLevel(h, leaves, height - 1);
      } else {
        TreeOfLevel(h, leaves[..2 * quarter], height - 1);
        TreeOfLevel(h, leaves[2 * quarter..], height - 1);
        LevelHalves(h, leaves, quarter);
      }
    }
  }

  /** The level-by-level loop computes the root of the least tree that holds the leaves. */
  lemma {:induction false} RootIsTree<F>(h: PairHash<F>, leaves: seq<F>)
    requires leaves != []
    ensures Root(h, leaves) == Tree(h, leaves, Height(|leaves|))
    decreases |leaves|
  {
    if |leaves| > 1 {
      RootIsTree(h, Level(h, leaves));
      TreeOfLevel(h, leaves, Height((|leaves| + 1) / 2));
    }
  }

  // ----- what the root binds ---------------------------------------------------------------

  /** The pairs hashed in one pass ... */
  ghost function Paired<F(!new)>(nodes: seq<F>): set<(F, F)> {
    set i | 0 <= i < (|nodes| + 1) / 2 :: (nodes[2 * i], if 2 * i + 1 < |nodes| then nodes[2 * i + 1] else nodes[2 * i])
  }

  /** ... and in all of them. */
  ghost function Hashed<F(!new)>(h: PairHash<F>, nodes: seq<F>): set<(F, F)>
    decreases |nodes|
  {
    if |nodes| <= 1 then {} else Paired(nodes) + Hashed(h, Level(h, nodes))
  }

  /** No two of these pairs collide. Nothing is assumed about the hash elsewhere. */
  ghost predicate NoCollisions<F(!new)>(h: PairHash<F>, pairs: set<(F, F)>) {
    forall p, q :: p in pairs && q in pairs && h(p.0, p.1) == h(q.0, q.1) ==> p == q
  }

  lemma PairedAt<F(!new)>(h: PairHash<F>, nodes: seq<F>, i: nat)
    requires i < (|nodes| + 1) / 2
    ensures var right := if 2 * i + 1 < |nodes| then nodes[2 * i + 1] else nodes[2 * i];
            (nodes[2 * i], right) in Paired(nodes) && Level(h, nodes)[i] == h(nodes[2 * i], right)
  {}

  lemma {:induction false} LevelBinds<F(!new)>(h: PairHash<F>, xs: seq<F>, ys: seq<F>)
    requires NoCollisions(h, Paired(xs) + Paired(ys)) && |xs| == |ys| && Level(h, xs) == Level(h, ys)
    ensures xs == ys
  {
    forall k | 0 <= k < |xs| ensures xs[k] == ys[k] {
      PairedAt(h, xs, k / 2);
      PairedAt(h, ys, k / 2);
      assert k == 2 * (k / 2) || k == 2 * (k / 2) + 1;
    }
  }

  /** Equally long logs with the same root are the same log, unless two of the pairs hashed for them collide. */
  lemma {:induction false} RootBindsLeaves<F(!new)>(h: PairHash<F>, xs: seq<F>, ys: seq<F>)
    requires |xs| == |ys| > 0 && NoCollisions(h, Hashed(h, xs) + Hashed(h, ys)) && Root(h, xs) == Root(h, ys)
    ensures xs == ys
    decreases |xs|
  {
    if |xs| > 1 {
      FewerPairs(h, Hashed(h, xs) + Hashed(h, ys), Hashed(h, Level(h, xs)) + Hashed(h, Level(h, ys)));
      FewerPairs(h, Hashed(h, xs) + Hashed(h, ys), Paired(xs) + Paired(ys));
      RootBindsLeaves(h, Level(h, xs), Level(h, ys));
      LevelBinds(h, xs, ys);
    }
  }

  lemma FewerPairs<F(!new)>(h: PairHash<F>, pairs: set<(F, F)>, fewer: set<(F, F)>)
    requires NoCollisions(h, pairs) && fewer <= pairs
    ensures NoCollisions(h, fewer)
  {}

  /** Rewriting leaf `k`, and any later ones, changes the roots of exactly the prefixes longer than `k`. */
  lemma {:induction false} RewrittenLeafChangesRoots<F(!new)>(h: PairHash<F>, xs: seq<F>, ys: seq<F>, k: nat, n: nat)
    requires k < |xs| && k < |ys| && 0 < n <= |xs| && n <= |ys|
    requires xs[..k] == ys[..k] && xs[k] != ys[k]
    requires NoCollisions(h, Hashed(h, xs[..n]) + Hashed(h, ys[..n]))
    ensures Root(h, xs[..n]) != Root(h, ys[..n]) <==> n > k
  {
    if n <= k {
      assert xs[..n] == xs[..k][..n] && ys[..n] == ys[..k][..n];
    } else {
      assert xs[..n][k] != ys[..n][k];
      if Root(h, xs[..n]) == Root(h, ys[..n]) { RootBindsLeaves(h, xs[..n], ys[..n]); }
    }
  }

  /** The root alone does not fix the count: an odd log of three or more and the same log with its last leaf
      repeated have the same root. */
  lemma {:induction false} RepeatedLastLeaf<F>(h: PairHash<F>, leaves: seq<F>)
    requires |leaves| >= 3 && |leaves| % 2 == 1
    ensures Root(h, leaves + [leaves[|leaves| - 1]]) == Root(h, leaves)
  {
    var n, last := |leaves| - 1, leaves[|leaves| - 1];
    assert leaves == leaves[..n] + [last] && leaves + [last] == leaves[..n] + [last, last];
    LevelSplits(h, leaves[..n], [last]);
    LevelSplits(h, leaves[..n], [last, last]);
    assert Level(h, [last]) == Level(h, [last, last]);
  }

  /** The largest power of two that divides `n`. */
  function Block(n: nat): (r: nat)
    requires n > 0
    ensures 0 < r <= n
  {
    if n % 2 == 1 then 1 else 2 * Block(n / 2)
  }

  /** The last `count` leaves are all `x`. */
  ghost predicate EndsIn<F>(leaves: seq<F>, count: nat, x: F)
    requires count <= |leaves|
  {
    forall i :: |leaves| - count <= i < |leaves| ==> leaves[i] == x
  }

  lemma {:induction false} LevelEndsIn<F(!new)>(h: PairHash<F>, leaves: seq<F>, count: nat, x: F)
    requires NoCollisions(h, Paired(leaves) + {(x, x)}) && |leaves| % 2 == 0 && 2 * count <= |leaves|
    ensures EndsIn(Level(h, leaves), count, h(x, x)) <==> EndsIn(leaves, 2 * count, x)
  {
    var n, level := |leaves|, Level(h, leaves);
    if EndsIn(level, count, h(x, x)) {
      forall i | n - 2 * count <= i < n ensures leaves[i] == x {
        PairedAt(h, leaves, i / 2);
        assert level[i / 2] == h(x, x);
        assert i == 2 * (i / 2) || i == 2 * (i / 2) + 1;
      }
    }
  }

  /** Exactly when one leaf more leaves the root as it was, for trees of the same height whose pairs do not collide:
      the log's last leaves, as many as the largest power of two dividing its length, all equal the new one. */
  lemma {:induction false} OneMoreLeaf<F(!new)>(h: PairHash<F>, leaves: seq<F>, x: F)
    requires leaves != [] && Height(|leaves| + 1) == Height(|leaves|)
    requires NoCollisions(h, Hashed(h, leaves) + Hashed(h, leaves + [x]))
    ensures OneMoreKeeps(h, leaves, Block(|leaves|), x)
  {
    hide OneMoreKeeps, Hashed, NoCollisions, Height, Block;
    OneMoreOf(h, leaves, |leaves|, x);
  }

  lemma {:induction false} OneMoreOf<F(!new)>(h: PairHash<F>, leaves: seq<F>, n: nat, x: F)
    requires |leaves| == n > 0 && Height(n + 1) == Height(n)
    requires NoCollisions(h, Hashed(h, leaves) + Hashed(h, leaves + [x]))
    ensures OneMoreKeeps(h, leaves, Block(n), x)
    decreases n, 1
  {
    hide OneMoreKeeps, Hashed, NoCollisions, Height;
    if n % 2 == 1 {
      OneMoreOddLeaf(h, leaves, x);
    } else {
      OneMoreEvenLeaf(h, leaves, n / 2, x);
    }
  }

  lemma {:induction false} OneMoreEvenLeaf<F(!new)>(h: PairHash<F>, leaves: seq<F>, m: nat, x: F)
    requires |leaves| == 2 * m > 0 && Height(2 * m + 1) == Height(2 * m)
    requires NoCollisions(h, Hashed(h, leaves) + Hashed(h, leaves + [x]))
    ensures OneMoreKeeps(h, leaves, Block(2 * m), x)
    decreases 2 * m, 0
  {
    OneLevelUp(h, leaves, m, x);
    OneMoreOf(h, Level(h, leaves), m, h(x, x));
    OneLevelDown(h, leaves, Block(m), x);
  }

  /** One leaf more keeps the root exactly if the last `count` leaves equal it. */
  ghost predicate OneMoreKeeps<F>(h: PairHash<F>, leaves: seq<F>, count: nat, x: F)
    requires leaves != [] && count <= |leaves|
  {
    Root(h, leaves + [x]) == Root(h, leaves) <==> EndsIn(leaves, count, x)
  }

  lemma LevelOfLonger<F>(h: PairHash<F>, leaves: seq<F>, x: F)
    requires |leaves| % 2 == 0
    ensures Level(h, leaves + [x]) == Level(h, leaves) + [h(x, x)]
  {
    LevelSplits(h, leaves, [x]);
    assert Level(h, [x]) == [h(x, x)];
  }

  lemma Doubled(m: nat)
    requires m > 0
    ensures Height(2 * m) == Height(m) + 1 && Height(2 * m + 1) == Height(m + 1) + 1
    ensures Block(2 * m) == 2 * Block(m)
  {
    assert (2 * m + 1) / 2 == m && (2 * m + 1 + 1) / 2 == m + 1;
  }

  lemma {:induction false} OneLevelUp<F(!new)>(h: PairHash<F>, leaves: seq<F>, m: nat, x: F)
    requires |leaves| == 2 * m > 0 && Height(2 * m + 1) == Height(2 * m)
    requires NoCollisions(h, Hashed(h, leaves) + Hashed(h, leaves + [x]))
    ensures |Level(h, leaves)| == m && Height(m + 1) == Height(m) && Block(2 * m) == 2 * Block(m)
    ensures NoCollisions(h, Hashed(h, Level(h, leaves)) + Hashed(h, Level(h, leaves) + [h(x, x)]))
  {
    Doubled(m);
    LevelOfLonger(h, leaves, x);
    FewerPairs(h, Hashed(h, leaves) + Hashed(h, leaves + [x]),
               Hashed(h, Level(h, leaves)) + Hashed(h, Level(h, leaves + [x])));
  }

  lemma {:induction false} OneLevelDown<F(!new)>(h: PairHash<F>, leaves: seq<F>, count: nat, x: F)
    requires leaves != [] && |leaves| % 2 == 0 && 2 * count <= |leaves|
    requires OneMoreKeeps(h, Level(h, leaves), count, h(x, x))
    requires NoCollisions(h, Hashed(h, leaves) + Hashed(h, leaves + [x]))
    ensures OneMoreKeeps(h, leaves, 2 * count, x)
  {
    var longer := leaves + [x];
    LevelOfLonger(h, leaves, x);
    PairedAt(h, longer, |leaves| / 2);
    FewerPairs(h, Hashed(h, leaves) + Hashed(h, longer), Paired(leaves) + {(x, x)});
    LevelEndsIn(h, leaves, count, x);
    assert Root(h, longer) == Root(h, Level(h, longer));
  }

  lemma {:induction false} OneMoreOddLeaf<F(!new)>(h: PairHash<F>, leaves: seq<F>, x: F)
    requires |leaves| >= 2 && |leaves| % 2 == 1
    requires NoCollisions(h, Hashed(h, leaves) + Hashed(h, leaves + [x]))
    ensures OneMoreKeeps(h, leaves, 1, x)
  {
    if x == leaves[|leaves| - 1] { RepeatedLastLeaf(h, leaves); }
    if Root(h, leaves + [x]) == Root(h, leaves) { SameRootSameLast(h, leaves, |leaves| / 2, x); }
  }

  lemma {:induction false} SameRootSameLast<F(!new)>(h: PairHash<F>, leaves: seq<F>, m: nat, x: F)
    requires |leaves| == 2 * m + 1 >= 2 && Root(h, leaves + [x]) == Root(h, leaves)
    requires NoCollisions(h, Hashed(h, leaves) + Hashed(h, leaves + [x]))
    ensures x == leaves[2 * m]
  {
    var longer := leaves + [x];
    SameLevel(h, leaves, longer);
    PairedAt(h, longer, m);
    PairedAt(h, leaves, m);
  }

  lemma {:induction false} SameLevel<F(!new)>(h: PairHash<F>, xs: seq<F>, ys: seq<F>)
    requires |xs| >= 2 && |ys| >= 2 && |Level(h, xs)| == |Level(h, ys)| && Root(h, ys) == Root(h, xs)
    requires NoCollisions(h, Hashed(h, xs) + Hashed(h, ys))
    ensures Level(h, xs) == Level(h, ys)
  {
    FewerPairs(h, Hashed(h, xs) + Hashed(h, ys), Hashed(h, Level(h, xs)) + Hashed(h, Level(h, ys)));
    RootBindsLeaves(h, Level(h, xs), Level(h, ys));
  }
}
