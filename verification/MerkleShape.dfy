/** When two logs of any lengths have the same root. */
module MerkleShape {
  import opened Basics
  import opened Merkle

  /** The leaf that stands at position `i` of the full tree over `n` leaves: leaf `i`, or the one mirrored there. */
  function Standing(n: nat, i: nat): (r: nat)
    requires n > 0
    ensures r < n
    decreases n
  {
    if n == 1 then 0
    else
      var parent := Standing((n + 1) / 2, i / 2);
      if 2 * parent + i % 2 < n then 2 * parent + i % 2 else 2 * parent
  }

  lemma {:induction false} StandsItself(n: nat, i: nat)
    requires i < n
    ensures Standing(n, i) == i
    decreases n
  {
    if n > 1 { StandsItself((n + 1) / 2, i / 2); }
  }

  /** The same tree height, and the same leaf standing at every position. */
  ghost predicate Alike<F>(xs: seq<F>, ys: seq<F>)
    requires xs != [] && ys != []
  {
    && Height(|xs|) == Height(|ys|)
    && forall i: nat {:trigger Standing(|xs|, i)} {:trigger Standing(|ys|, i)} :: i < Pow2(Height(|xs|)) ==> AlikeAt(xs, ys, i)
  }

  ghost predicate AlikeAt<F>(xs: seq<F>, ys: seq<F>, i: nat)
    requires xs != [] && ys != []
  {
    xs[Standing(|xs|, i)] == ys[Standing(|ys|, i)]
  }

  /** Logs alike agree at every leaf they both have. */
  lemma AlikeAgrees<F>(xs: seq<F>, ys: seq<F>, k: nat)
    requires xs != [] && ys != [] && Alike(xs, ys) && k < |xs| && k < |ys|
    ensures xs[k] == ys[k]
  {
    StandsItself(|xs|, k);
    StandsItself(|ys|, k);
    assert AlikeAt(xs, ys, k);
  }

  /** A node stands for its two children. */
  lemma NodeAt<F>(h: PairHash<F>, nodes: seq<F>, j: nat)
    requires |nodes| > 1
    ensures var n, level := |nodes|, Level(h, nodes);
            level[Standing(|level|, j)] == h(nodes[Standing(n, 2 * j)], nodes[Standing(n, 2 * j + 1)])
  {
    assert 2 * j / 2 == j && (2 * j + 1) / 2 == j && 2 * j % 2 == 0 && (2 * j + 1) % 2 == 1;
  }

  lemma ChildPair<F(!new)>(h: PairHash<F>, nodes: seq<F>, j: nat)
    requires |nodes| > 1
    ensures (nodes[Standing(|nodes|, 2 * j)], nodes[Standing(|nodes|, 2 * j + 1)]) in Paired(nodes)
  {
    assert 2 * j / 2 == j && (2 * j + 1) / 2 == j && 2 * j % 2 == 0 && (2 * j + 1) % 2 == 1;
    PairedAt(h, nodes, Standing((|nodes| + 1) / 2, j));
  }

  // ----- trees of different heights ----------------------------------------------------------

  /** The nodes `d` levels above these, or the root if that is lower. */
  function Climb<F>(h: PairHash<F>, nodes: seq<F>, d: nat): (r: seq<F>)
    requires nodes != []
    ensures r != [] && |r| <= |nodes|
    decreases d
  {
    if d == 0 || |nodes| == 1 then nodes else Climb(h, Level(h, nodes), d - 1)
  }

  lemma {:induction false} ClimbIsLower<F>(h: PairHash<F>, nodes: seq<F>, d: nat)
    requires nodes != [] && d <= Height(|nodes|)
    ensures Height(|Climb(h, nodes, d)|) == Height(|nodes|) - d
    decreases d
  {
    if d > 0 { ClimbIsLower(h, Level(h, nodes), d - 1); }
  }

  lemma {:induction false} ClimbToRoot<F>(h: PairHash<F>, nodes: seq<F>)
    requires nodes != []
    ensures Climb(h, nodes, Height(|nodes|)) == [Root(h, nodes)]
    decreases |nodes|
  {
    if |nodes| > 1 { ClimbToRoot(h, Level(h, nodes)); }
  }

  /** One step more is one step more from wherever one is. */
  lemma {:induction false} ClimbOnce<F>(h: PairHash<F>, nodes: seq<F>, d: nat)
    requires nodes != [] && d < Height(|nodes|)
    ensures |Climb(h, nodes, d)| > 1 && Climb(h, nodes, d + 1) == Level(h, Climb(h, nodes, d))
    decreases d
  {
    ClimbIsLower(h, nodes, d);
    if d > 0 { ClimbOnce(h, Level(h, nodes), d - 1); }
  }

  lemma {:induction false} ClimbedPairs<F(!new)>(h: PairHash<F>, nodes: seq<F>, d: nat)
    requires nodes != [] && d < Height(|nodes|)
    ensures Paired(Climb(h, nodes, d)) <= Hashed(h, nodes)
    decreases d
  {
    if d > 0 { ClimbedPairs(h, Level(h, nodes), d - 1); }
  }

  /** The lower tree is alike the upper part of the higher one, cut at the lower one's height. */
  ghost predicate SameTree<F>(h: PairHash<F>, xs: seq<F>, ys: seq<F>)
    requires xs != [] && ys != []
  {
    var p, q := Height(|xs|), Height(|ys|);
    if p <= q then Alike(xs, Climb(h, ys, q - p)) else Alike(Climb(h, xs, p - q), ys)
  }

  lemma AlikeSymmetric<F>(xs: seq<F>, ys: seq<F>)
    requires xs != [] && ys != []
    ensures Alike(xs, ys) <==> Alike(ys, xs)
  {
    forall i: nat ensures AlikeAt(xs, ys, i) <==> AlikeAt(ys, xs, i) {}
  }

  lemma AlikeSingle<F>(x: F, y: F)
    ensures Alike([x], [y]) <==> x == y
  {
    assert Standing(1, 0) == 0;
    assert AlikeAt([x], [y], 0) <==> x == y;
  }

  lemma {:induction false} AlikeLevels<F(!new)>(h: PairHash<F>, xs: seq<F>, ys: seq<F>)
    requires |xs| > 1 && |ys| > 1 && NoCollisions(h, Paired(xs) + Paired(ys))
    ensures Alike(Level(h, xs), Level(h, ys)) <==> Alike(xs, ys)
  {
    var half := Pow2(Height(|Level(h, xs)|));
    assert Pow2(Height(|xs|)) == 2 * half;
    if Alike(Level(h, xs), Level(h, ys)) {
      forall i: nat | i < 2 * half ensures AlikeAt(xs, ys, i) { AlikeBelow(h, xs, ys, i); }
    }
    if Alike(xs, ys) {
      forall j: nat | j < half ensures AlikeAt(Level(h, xs), Level(h, ys), j) {
        NodeAt(h, xs, j);
        NodeAt(h, ys, j);
        assert AlikeAt(xs, ys, 2 * j) && AlikeAt(xs, ys, 2 * j + 1);
      }
    }
  }

  lemma AlikeBelow<F(!new)>(h: PairHash<F>, xs: seq<F>, ys: seq<F>, i: nat)
    requires |xs| > 1 && |ys| > 1 && NoCollisions(h, Paired(xs) + Paired(ys))
    requires Alike(Level(h, xs), Level(h, ys)) && i / 2 < Pow2(Height(|Level(h, xs)|))
    ensures AlikeAt(xs, ys, i)
  {
    hide Level, Pow2, Height, Standing, Paired;
    var j := i / 2;
    NodeAt(h, xs, j);
    NodeAt(h, ys, j);
    ChildPair(h, xs, j);
    ChildPair(h, ys, j);
    assert AlikeAt(Level(h, xs), Level(h, ys), j);
    assert i == 2 * j || i == 2 * j + 1;
  }

  lemma {:induction false} SameRootLower<F(!new)>(h: PairHash<F>, xs: seq<F>, ys: seq<F>, d: nat)
    requires xs != [] && ys != [] && Height(|ys|) == Height(|xs|) + d
    requires NoCollisions(h, Hashed(h, xs) + Hashed(h, ys))
    ensures Root(h, xs) == Root(h, ys) <==> Alike(xs, Climb(h, ys, d))
    decreases |xs|
  {
    if |xs| == 1 {
      ClimbToRoot(h, ys);
      AlikeSingle(xs[0], Root(h, ys));
      assert xs == [xs[0]];
    } else {
      FewerPairs(h, Hashed(h, xs) + Hashed(h, ys), Hashed(h, Level(h, xs)) + Hashed(h, Level(h, ys)));
      SameRootLower(h, Level(h, xs), Level(h, ys), d);
      ClimbOnce(h, ys, d);
      ClimbedPairs(h, ys, d);
      FewerPairs(h, Hashed(h, xs) + Hashed(h, ys), Paired(xs) + Paired(Climb(h, ys, d)));
      AlikeLevels(h, xs, Climb(h, ys, d));
    }
  }

  /** Two logs of any lengths have the same root if and only if they are the same tree as far as the lower one goes,
      unless two of the pairs hashed for them collide. */
  lemma {:induction false} SameRootExactly<F(!new)>(h: PairHash<F>, xs: seq<F>, ys: seq<F>)
    requires xs != [] && ys != [] && NoCollisions(h, Hashed(h, xs) + Hashed(h, ys))
    ensures Root(h, xs) == Root(h, ys) <==> SameTree(h, xs, ys)
  {
    hide Alike, Climb, Root, Height, Hashed, NoCollisions;
    var p, q := Height(|xs|), Height(|ys|);
    if p <= q {
      SameRootLower(h, xs, ys, q - p);
    } else {
      assert Hashed(h, xs) + Hashed(h, ys) == Hashed(h, ys) + Hashed(h, xs);
      SameRootLower(h, ys, xs, p - q);
      AlikeSymmetric(Climb(h, xs, p - q), ys);
    }
  }

  // ----- leaves that are no nodes --------------------------------------------------------------

  ghost predicate NoNode<F(!new)>(h: PairHash<F>, leaves: seq<F>, pairs: set<(F, F)>) {
    forall p :: p in pairs ==> h(p.0, p.1) !in leaves
  }

  /** No two pairs hashed for the logs collide, and no leaf of one is a node of the other. */
  ghost predicate Unmixed<F(!new)>(h: PairHash<F>, xs: seq<F>, ys: seq<F>) {
    && NoCollisions(h, Hashed(h, xs) + Hashed(h, ys))
    && NoNode(h, xs, Hashed(h, ys)) && NoNode(h, ys, Hashed(h, xs))
  }

  lemma {:induction false} ClimbedIsNode<F(!new)>(h: PairHash<F>, nodes: seq<F>, d: nat, i: nat) returns (p: (F, F))
    requires nodes != [] && 0 < d <= Height(|nodes|) && i < |Climb(h, nodes, d)|
    ensures p in Hashed(h, nodes) && Climb(h, nodes, d)[i] == h(p.0, p.1)
    decreases d
  {
    ClimbOnce(h, nodes, d - 1);
    ClimbedPairs(h, nodes, d - 1);
    var below := Climb(h, nodes, d - 1);
    PairedAt(h, below, i);
    p := (below[2 * i], if 2 * i + 1 < |below| then below[2 * i + 1] else below[2 * i]);
  }

  lemma NodeIsNoLeaf<F(!new)>(h: PairHash<F>, xs: seq<F>, ys: seq<F>, d: nat)
    requires xs != [] && ys != [] && 0 < d <= Height(|ys|) && NoNode(h, xs, Hashed(h, ys))
    ensures !Alike(xs, Climb(h, ys, d))
  {
    var nodes := Climb(h, ys, d);
    var p := ClimbedIsNode(h, ys, d, Standing(|nodes|, 0));
    assert xs[Standing(|xs|, 0)] in xs;
    assert !AlikeAt(xs, nodes, 0);
  }

  /** Where no leaf of one log is a node of the other, the same root means trees of one height, alike leaf by leaf. */
  lemma {:induction false} UnmixedSameTree<F(!new)>(h: PairHash<F>, xs: seq<F>, ys: seq<F>)
    requires xs != [] && ys != [] && Unmixed(h, xs, ys)
    ensures SameTree(h, xs, ys) <==> Alike(xs, ys)
  {
    hide Alike, NoNode;
    var p, q := Height(|xs|), Height(|ys|);
    if p < q {
      NodeIsNoLeaf(h, xs, ys, q - p);
      AlikeHeights(xs, ys);
    } else if p > q {
      NodeIsNoLeaf(h, ys, xs, p - q);
      AlikeSymmetric(Climb(h, xs, p - q), ys);
      AlikeHeights(xs, ys);
    }
  }

  lemma AlikeHeights<F>(xs: seq<F>, ys: seq<F>)
    requires xs != [] && ys != [] && Height(|xs|) != Height(|ys|)
    ensures !Alike(xs, ys)
  {}
}
