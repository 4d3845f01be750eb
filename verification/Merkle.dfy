/** Merkle roots: the level-by-level loop, the tree it computes, and what a root binds. */
module Merkle {

  /** One pass over a level: neighbours are hashed together, an odd last node moves up. */
  function NextLevel<H>(hash: (H, H) -> H, level: seq<H>): (next: seq<H>)
    ensures |next| == (|level| + 1) / 2
  {
    if |level| <= 1 then level else [hash(level[0], level[1])] + NextLevel(hash, level[2..])
  }

  /** The point where the tree over `n` leaves divides. */
  ghost function Split(n: nat): (k: nat)
    requires 2 <= n
    ensures 1 <= k < n <= 2 * k
  {
    if n == 2 then 1 else 2 * Split((n + 1) / 2)
  }

  ghost predicate PowerOfTwo(k: nat) {
    k == 1 || (k > 1 && k % 2 == 0 && PowerOfTwo(k / 2))
  }

  /** The division point is the largest power of two below `n`, as in section 2.1 of RFC 6962. */
  lemma {:induction false} SplitIsLargestPowerOfTwo(n: nat)
    requires 2 <= n
    ensures PowerOfTwo(Split(n))
    ensures forall j: nat :: PowerOfTwo(j) && j < n ==> j <= Split(n)
  {
    SplitPower(n);
    forall j: nat | PowerOfTwo(j) && j < n
      ensures j <= Split(n)
    {
      PowersApart(j, Split(n));
    }
  }

  lemma {:induction false} SplitPower(n: nat)
    requires 2 <= n
    ensures PowerOfTwo(Split(n))
  {
    if n > 2 {
      SplitPower((n + 1) / 2);
      assert Split(n) / 2 == Split((n + 1) / 2);
    }
  }

  /** Distinct powers of two are at least a factor of two apart. */
  lemma {:induction false} PowersApart(j: nat, k: nat)
    requires PowerOfTwo(j) && PowerOfTwo(k)
    ensures j <= k || 2 * k <= j
    decreases j
  {
    if j > 1 && k > 1 {
      PowersApart(j / 2, k / 2);
    }
  }

  /** The root as a tree: two halves divided at the largest power of two. */
  ghost function TreeRoot<H>(hash: (H, H) -> H, leaves: seq<H>): H
    requires leaves != []
    decreases |leaves|
  {
    if |leaves| == 1 then leaves[0] else
      var k := Split(|leaves|);
      hash(TreeRoot(hash, leaves[..k]), TreeRoot(hash, leaves[k..]))
  }

  // ----- the loop computes the tree

  lemma {:induction false} NextLevelSplits<H>(hash: (H, H) -> H, a: seq<H>, b: seq<H>)
    requires |a| % 2 == 0
    ensures NextLevel(hash, a + b) == NextLevel(hash, a) + NextLevel(hash, b)
    decreases |a|
  {
    if a == [] {
      assert a + b == b;
    } else {
      NextLevelSplits(hash, a[2..], b);
      assert (a + b)[2..] == a[2..] + b;
    }
  }

  lemma {:induction false} RootOfJoin<H>(hash: (H, H) -> H, left: seq<H>, right: seq<H>)
    requires left != [] && right != [] && |left| == Split(|left| + |right|)
    ensures TreeRoot(hash, left + right) == hash(TreeRoot(hash, left), TreeRoot(hash, right))
  {
    var both := left + right;
    assert both[..|left|] == left && both[|left|..] == right;
  }

  lemma {:induction false} RootOfNextJoin<H>(hash: (H, H) -> H, left: seq<H>, right: seq<H>)
    requires left != [] && right != [] && 2 < |left| + |right| && |left| == Split(|left| + |right|)
    ensures TreeRoot(hash, NextLevel(hash, left + right))
         == hash(TreeRoot(hash, NextLevel(hash, left)), TreeRoot(hash, NextLevel(hash, right)))
  {
    NextLevelSplits(hash, left, right);
    RootOfJoin(hash, NextLevel(hash, left), NextLevel(hash, right));
  }

  /** Moving up one level does not change the tree's root. */
  lemma {:induction false} LevelKeepsRoot<H>(hash: (H, H) -> H, level: seq<H>)
    requires level != []
    ensures TreeRoot(hash, NextLevel(hash, level)) == TreeRoot(hash, level)
    decreases |level|
  {
    if |level| == 2 {
      PairRoot(hash, level);
    } else if |level| > 2 {
      var k := Split(|level|);
      var left, right := level[..k], level[k..];
      assert level == left + right;
      LevelKeepsRoot(hash, left);
      LevelKeepsRoot(hash, right);
      RootOfJoin(hash, left, right);
      RootOfNextJoin(hash, left, right);
    }
  }

  lemma {:induction false} PairRoot<H>(hash: (H, H) -> H, level: seq<H>)
    requires |level| == 2
    ensures TreeRoot(hash, NextLevel(hash, level)) == TreeRoot(hash, level)
  {
    assert level[2..] == [];
    assert NextLevel(hash, level) == [hash(level[0], level[1])];
    assert level[..1] == [level[0]] && level[1..] == [level[1]];
  }

  /** The inner loop: one level from the one below, chunk by chunk. */
  method HashLevel<H>(hash: (H, H) -> H, level: seq<H>) returns (next: seq<H>)
    ensures next == NextLevel(hash, level)
  {
    next := [];
    var i := 0;
    assert level[0..] == level;
    while i < |level|
      invariant 0 <= i <= |level|
      invariant NextLevel(hash, level) == next + NextLevel(hash, level[i..])
    {
      var rest := level[i..];
      if i + 1 < |level| {
        next := next + [hash(level[i], level[i + 1])];
        assert rest[2..] == level[i + 2..];
        i := i + 2;
      } else {
        next := next + [level[i]];
        assert rest == [level[i]];
        i := i + 1;
      }
    }
  }

  /** The loop over levels ends and yields the root of the tree; no leaves yield `zero`. */
  method MerkleRoot<H>(hash: (H, H) -> H, zero: H, hashes: seq<H>) returns (root: H)
    ensures root == if hashes == [] then zero else TreeRoot(hash, hashes)
  {
    if |hashes| == 0 {
      return zero;
    }
    if |hashes| == 1 {
      return hashes[0];
    }
    var level := hashes;
    while |level| > 1
      invariant level != [] && TreeRoot(hash, level) == TreeRoot(hash, hashes)
      decreases |level|
    {
      LevelKeepsRoot(hash, level);
      level := HashLevel(hash, level);
    }
    return level[0];
  }

  // ----- what a root binds

  /** The pairs that are hashed on the way to the root. */
  ghost function Pairs<H(!new)>(hash: (H, H) -> H, x: seq<H>): set<(H, H)>
    decreases |x|
  {
    if |x| <= 1 then {}
    else
      var k := Split(|x|);
      Pairs(hash, x[..k]) + Pairs(hash, x[k..]) + {(TreeRoot(hash, x[..k]), TreeRoot(hash, x[k..]))}
  }

  /** No two of these pairs have one hash. */
  ghost predicate CollisionFree<H(!new)>(hash: (H, H) -> H, pairs: set<(H, H)>) {
    forall p, q :: p in pairs && q in pairs && hash(p.0, p.1) == hash(q.0, q.1) ==> p == q
  }

  lemma FewerPairs<H(!new)>(hash: (H, H) -> H, pairs: set<(H, H)>, fewer: set<(H, H)>)
    requires CollisionFree(hash, pairs) && fewer <= pairs
    ensures CollisionFree(hash, fewer)
  {
  }

  /** If the roots agree, so do those of the halves. */
  lemma RootsSplit<H(!new)>(hash: (H, H) -> H, x: seq<H>, y: seq<H>)
    requires |x| > 1 && |y| > 1 && TreeRoot(hash, x) == TreeRoot(hash, y)
    requires CollisionFree(hash, Pairs(hash, x) + Pairs(hash, y))
    ensures var j, k := Split(|x|), Split(|y|);
            && TreeRoot(hash, x[..j]) == TreeRoot(hash, y[..k]) && TreeRoot(hash, x[j..]) == TreeRoot(hash, y[k..])
            && CollisionFree(hash, Pairs(hash, x[..j]) + Pairs(hash, y[..k]))
            && CollisionFree(hash, Pairs(hash, x[j..]) + Pairs(hash, y[k..]))
  {
    var j, k := Split(|x|), Split(|y|);
    var pairs := Pairs(hash, x) + Pairs(hash, y);
    FewerPairs(hash, pairs, Pairs(hash, x[..j]) + Pairs(hash, y[..k]));
    FewerPairs(hash, pairs, Pairs(hash, x[j..]) + Pairs(hash, y[k..]));
    var p, q := (TreeRoot(hash, x[..j]), TreeRoot(hash, x[j..])), (TreeRoot(hash, y[..k]), TreeRoot(hash, y[k..]));
    assert p in pairs && q in pairs && hash(p.0, p.1) == hash(q.0, q.1);
  }

  /** Lists of one length with one root are one list, if no two of the pairs hashed for the two
      roots collide. */
  lemma {:induction false} RootBindsLeaves<H(!new)>(hash: (H, H) -> H, x: seq<H>, y: seq<H>)
    requires x != [] && |x| == |y| && CollisionFree(hash, Pairs(hash, x) + Pairs(hash, y))
    ensures TreeRoot(hash, x) == TreeRoot(hash, y) <==> x == y
    decreases |x|
  {
    if TreeRoot(hash, x) == TreeRoot(hash, y) && |x| > 1 {
      var k := Split(|x|);
      RootsSplit(hash, x, y);
      RootBindsLeaves(hash, x[..k], y[..k]);
      RootBindsLeaves(hash, x[k..], y[k..]);
      assert x == x[..k] + x[k..] && y == y[..k] + y[k..];
    }
  }

  /** A leaf of `x` is the root of a stretch of two or more leaves of `y`. */
  ghost predicate LeafIsInner<H(!new)>(hash: (H, H) -> H, x: seq<H>, i: nat, y: seq<H>, lo: nat, hi: nat) {
    i < |x| && lo + 1 < hi <= |y| && x[i] == TreeRoot(hash, y[lo..hi])
  }

  lemma LeafIsInnerWithin<H(!new)>(hash: (H, H) -> H, x: seq<H>, i: nat, y: seq<H>, lo: nat, hi: nat, x': seq<H>, j: nat, y': seq<H>, k: nat)
    requires LeafIsInner(hash, x, i, y, lo, hi)
    requires j + |x| <= |x'| && x == x'[j..j + |x|] && k + |y| <= |y'| && y == y'[k..k + |y|]
    ensures LeafIsInner(hash, x', j + i, y', k + lo, k + hi)
  {
    assert x[i] == x'[j + i];
    var stretch := y'[k + lo..k + hi];
    forall t | 0 <= t < hi - lo ensures stretch[t] == y[lo..hi][t] {
      assert y[lo + t] == y'[k..k + |y|][lo + t];
    }
    assert stretch == y[lo..hi];
  }

  /** Where a leaf of one list stands for a stretch of the other: which list has the leaf, its
      index, and the stretch. */
  datatype Standing = Standing(inFirst: bool, leaf: nat, lo: nat, hi: nat)

  ghost predicate Stands<H(!new)>(hash: (H, H) -> H, x: seq<H>, y: seq<H>, f: Standing) {
    if f.inFirst then LeafIsInner(hash, x, f.leaf, y, f.lo, f.hi) else LeafIsInner(hash, y, f.leaf, x, f.lo, f.hi)
  }

  ghost function Shifted(f: Standing, a: nat, c: nat): Standing {
    if f.inFirst then Standing(true, a + f.leaf, c + f.lo, c + f.hi) else Standing(false, c + f.leaf, a + f.lo, a + f.hi)
  }

  lemma SingleStands<H(!new)>(hash: (H, H) -> H, x: seq<H>, y: seq<H>) returns (f: Standing)
    requires x != [] && y != [] && x != y && TreeRoot(hash, x) == TreeRoot(hash, y) && (|x| == 1 || |y| == 1)
    ensures Stands(hash, x, y, f)
  {
    if |x| == 1 {
      assert y[0..|y|] == y;
      f := Standing(true, 0, 0, |y|);
    } else {
      assert x[0..|x|] == x;
      f := Standing(false, 0, 0, |x|);
    }
  }

  /** Different lists with one root, no two of the pairs hashed for it colliding. */
  ghost predicate Clash<H(!new)>(hash: (H, H) -> H, x: seq<H>, y: seq<H>) {
    && x != [] && y != [] && x != y && TreeRoot(hash, x) == TreeRoot(hash, y)
    && CollisionFree(hash, Pairs(hash, x) + Pairs(hash, y))
  }

  /** Two lists with one root differ only by a leaf of one standing for a stretch of the other. */
  lemma {:induction false} SameRootFindsInner<H(!new)>(hash: (H, H) -> H, x: seq<H>, y: seq<H>) returns (f: Standing)
    requires Clash(hash, x, y)
    ensures Stands(hash, x, y, f)
    decreases |x|
  {
    if |x| == 1 || |y| == 1 {
      f := SingleStands(hash, x, y);
    } else {
      var a, b, c, d := DifferentHalf(hash, x, y);
      var g := SameRootFindsInner(hash, x[a..b], y[c..d]);
      InHalf(hash, x, a, b, y, c, d, g);
      f := Shifted(g, a, c);
    }
  }

  /** If two lists differ and their roots do not, so it is with one pair of their halves. */
  lemma DifferentHalf<H(!new)>(hash: (H, H) -> H, x: seq<H>, y: seq<H>) returns (a: nat, b: nat, c: nat, d: nat)
    requires |x| > 1 && |y| > 1 && Clash(hash, x, y)
    ensures a < b <= |x| && c < d <= |y| && b - a < |x| && Clash(hash, x[a..b], y[c..d])
  {
    var j, k := Split(|x|), Split(|y|);
    var left := HalvesClash(hash, x, y);
    if left {
      assert x[0..j] == x[..j] && y[0..k] == y[..k];
      return 0, j, 0, k;
    }
    assert x[j..|x|] == x[j..] && y[k..|y|] == y[k..];
    return j, |x|, k, |y|;
  }

  lemma HalvesClash<H(!new)>(hash: (H, H) -> H, x: seq<H>, y: seq<H>) returns (left: bool)
    requires |x| > 1 && |y| > 1 && Clash(hash, x, y)
    ensures var j, k := Split(|x|), Split(|y|); if left then Clash(hash, x[..j], y[..k]) else Clash(hash, x[j..], y[k..])
  {
    RootsSplit(hash, x, y);
    PartsDiffer(x, Split(|x|), y, Split(|y|));
    left := x[..Split(|x|)] != y[..Split(|y|)];
  }

  lemma PartsDiffer<H>(x: seq<H>, j: nat, y: seq<H>, k: nat)
    requires j <= |x| && k <= |y| && x != y
    ensures x[..j] != y[..k] || x[j..] != y[k..]
  {
    assert x == x[..j] + x[j..] && y == y[..k] + y[k..];
  }

  /** What is found in a part is found in the whole. */
  lemma InHalf<H(!new)>(hash: (H, H) -> H, x: seq<H>, a: nat, b: nat, y: seq<H>, c: nat, d: nat, f: Standing)
    requires a <= b <= |x| && c <= d <= |y| && Stands(hash, x[a..b], y[c..d], f)
    ensures Stands(hash, x, y, Shifted(f, a, c))
  {
    if f.inFirst {
      LeafIsInnerWithin(hash, x[a..b], f.leaf, y[c..d], f.lo, f.hi, x, a, y, c);
    } else {
      LeafIsInnerWithin(hash, y[c..d], f.leaf, x[a..b], f.lo, f.hi, y, c, x, a);
    }
  }

  /** A list of at least one and at most `n` leaves, all from `domain`. */
  ghost predicate Over<H(!new)>(x: seq<H>, domain: set<H>, n: nat) {
    1 <= |x| <= n && forall i :: 0 <= i < |x| ==> x[i] in domain
  }

  /** Among these lists, roots tell lists apart, whatever their lengths. */
  ghost predicate RootsTellApart<H(!new)>(hash: (H, H) -> H, domain: set<H>, n: nat) {
    forall x: seq<H>, y: seq<H> :: Over(x, domain, n) && Over(y, domain, n) && x != y ==> TreeRoot(hash, x) != TreeRoot(hash, y)
  }

  ghost predicate NoRootIsLeaf<H(!new)>(hash: (H, H) -> H, domain: set<H>, n: nat) {
    forall z: seq<H> :: Over(z, domain, n) && |z| > 1 ==> TreeRoot(hash, z) !in domain
  }

  /** Of the finitely many pairs hashed for these lists, no two collide. */
  ghost predicate NoCollisionOver<H(!new)>(hash: (H, H) -> H, domain: set<H>, n: nat) {
    forall x: seq<H>, y: seq<H> :: Over(x, domain, n) && Over(y, domain, n) ==> CollisionFree(hash, Pairs(hash, x) + Pairs(hash, y))
  }

  lemma StretchOver<H(!new)>(x: seq<H>, lo: nat, hi: nat, domain: set<H>, n: nat)
    requires Over(x, domain, n) && lo < hi <= |x|
    ensures Over(x[lo..hi], domain, n)
  {
  }

  lemma NoInnerNoClash<H(!new)>(hash: (H, H) -> H, domain: set<H>, n: nat, x: seq<H>, y: seq<H>)
    requires NoCollisionOver(hash, domain, n) && NoRootIsLeaf(hash, domain, n)
    requires Over(x, domain, n) && Over(y, domain, n) && TreeRoot(hash, x) == TreeRoot(hash, y)
    ensures x == y
  {
    if x != y {
      var f := SameRootFindsInner(hash, x, y);
      StretchOver(if f.inFirst then y else x, f.lo, f.hi, domain, n);
      assert false;
    }
  }

  /** Among lists of at most `n` leaves from a set, for any `n`, the root binds leaves and length
      exactly when no leaf of the set is the root of two or more. */
  lemma RootBindsListsIff<H(!new)>(hash: (H, H) -> H, domain: set<H>, n: nat)
    requires NoCollisionOver(hash, domain, n)
    ensures RootsTellApart(hash, domain, n) <==> NoRootIsLeaf(hash, domain, n)
  {
    if RootsTellApart(hash, domain, n) {
      forall z: seq<H> | Over(z, domain, n) && |z| > 1 ensures TreeRoot(hash, z) !in domain {
        var leaf := [TreeRoot(hash, z)];
        assert TreeRoot(hash, leaf) == TreeRoot(hash, z) && leaf != z;
        assert TreeRoot(hash, z) in domain ==> Over(leaf, domain, n);
      }
    }
    if NoRootIsLeaf(hash, domain, n) {
      forall x: seq<H>, y: seq<H> | Over(x, domain, n) && Over(y, domain, n) && x != y
        ensures TreeRoot(hash, x) != TreeRoot(hash, y)
      {
        if TreeRoot(hash, x) == TreeRoot(hash, y) {
          NoInnerNoClash(hash, domain, n, x, y);
        }
      }
    }
  }

  /** In general it does not: a pair and its hash have one root. */
  lemma PairCollidesWithItsHash<H>(hash: (H, H) -> H, a: H, b: H)
    ensures TreeRoot(hash, [a, b]) == TreeRoot(hash, [hash(a, b)])
  {
    assert [a, b][..1] == [a] && [a, b][1..] == [b];
  }
}
