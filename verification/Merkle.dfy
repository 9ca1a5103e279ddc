/**
 * The two level-by-level merkle loops (crates/sv2-p2pool-engine/src/coinbase.rs `merkle_path`,
 * crates/sv2-p2pool-engine/src/block.rs `compute_merkle_root_from_txids`), and why the path
 * the engine checks once and the root it computes later always agree.
 */
module Merkle {
  import opened Primitives

  /** The 64 bytes hashed for a pair of nodes. */
  function Join(left: Hash, right: Hash): (b: Bytes)
    ensures |b| == 64 && b[..32] == left && b[32..] == right
  {
    left + right
  }

  function Pair(sha: HashFn, left: Hash, right: Hash): Hash {
    sha(Join(left, right))
  }

  // ------------------------------------------------------------------
  // The tree, top down: node `i` of level `k` over the leaves `xs`
  // ------------------------------------------------------------------

  function Half(n: nat): (h: nat)
    ensures n > 1 ==> 1 <= h < n
    ensures n == 1 ==> h == 1
  {
    (n + 1) / 2
  }

  /** How many nodes level `k` has over `n` leaves. */
  function Width(n: nat, k: nat): (w: nat)
    ensures n > 0 ==> w > 0
  {
    if k == 0 then n else Half(Width(n, k - 1))
  }

  /** Where node `i`'s right child sits on a level of `n`: the last node repeats at an odd end. */
  function RightChild(n: nat, i: nat): (r: nat)
    requires i < Half(n)
    ensures 2 * i < n && 2 * i <= r < n
  {
    if 2 * i + 1 < n then 2 * i + 1 else n - 1
  }

  function Node(sha: HashFn, xs: seq<Hash>, k: nat, i: nat): Hash
    requires i < Width(|xs|, k)
    decreases k
  {
    if k == 0 then xs[i]
    else Pair(sha, Node(sha, xs, k - 1, 2 * i), Node(sha, xs, k - 1, RightChild(Width(|xs|, k - 1), i)))
  }

  /** The first level that is a single node. */
  function Depth(n: nat): nat
    requires n > 0
  {
    if n == 1 then 0 else 1 + Depth(Half(n))
  }

  /** The merkle root, defined on the tree. */
  function Root(sha: HashFn, xs: seq<Hash>): Hash
    requires xs != []
  {
    DepthIsLast(|xs|);
    Node(sha, xs, Depth(|xs|), 0)
  }

  /** The branch of leaf 0: node 1 of every level below the root. */
  function Path(sha: HashFn, xs: seq<Hash>): seq<Hash>
    requires xs != []
  {
    seq(Depth(|xs|), k requires 0 <= k < Depth(|xs|) => SiblingExists(|xs|, k); Node(sha, xs, k, 1))
  }

  /** Folding a branch from a leaf: how a miner derives the header's root from its coinbase. */
  function Fold(sha: HashFn, leaf: Hash, path: seq<Hash>): Hash
    decreases path
  {
    if path == [] then leaf else Fold(sha, Pair(sha, leaf, path[0]), path[1..])
  }

  lemma {:induction false} WidthShift(n: nat, k: nat)
    ensures Width(Half(n), k) == Width(n, k + 1)
  {
    if k > 0 { WidthShift(n, k - 1); }
  }

  lemma {:induction false} DepthIsLast(n: nat)
    requires n > 0
    ensures Width(n, Depth(n)) == 1
  {
    hide Half;
    if n > 1 {
      var d := Depth(Half(n));
      DepthIsLast(Half(n));
      WidthShift(n, d);
      assert Depth(n) == d + 1;
    }
  }

  lemma {:induction false} SiblingExists(n: nat, k: nat)
    requires n > 0 && k < Depth(n)
    ensures Width(n, k) > 1
  {
    if k > 0 {
      SiblingExists(Half(n), k - 1);
      WidthShift(n, k - 1);
    }
  }

  // ------------------------------------------------------------------
  // One level up
  // ------------------------------------------------------------------

  function NextLevel(sha: HashFn, xs: seq<Hash>): (ys: seq<Hash>)
    requires xs != []
    ensures |ys| == Half(|xs|)
    ensures ys != []
  {
    seq(Half(|xs|), i requires 0 <= i < Half(|xs|) =>
      Pair(sha, xs[2 * i], xs[RightChild(|xs|, i)]))
  }

  lemma NodeUnfold(sha: HashFn, xs: seq<Hash>, k: nat, i: nat)
    requires i < Width(|xs|, k + 1)
    ensures i < Half(Width(|xs|, k))
    ensures var right := RightChild(Width(|xs|, k), i);
      && 2 * i < Width(|xs|, k) && right < Width(|xs|, k)
      && Node(sha, xs, k + 1, i) == Pair(sha, Node(sha, xs, k, 2 * i), Node(sha, xs, k, right))
  {
  }

  lemma NodeShiftLeaf(sha: HashFn, xs: seq<Hash>, k: nat, i: nat)
    requires xs != [] && k == 0 && i < Width(|xs|, k + 1)
    ensures i < Width(|NextLevel(sha, xs)|, k)
    ensures Node(sha, NextLevel(sha, xs), k, i) == Node(sha, xs, k + 1, i)
  {
    hide Pair, RightChild, Half;
    NodeUnfold(sha, xs, k, i);
    var right := RightChild(|xs|, i);
    assert NextLevel(sha, xs)[i] == Pair(sha, xs[2 * i], xs[right]);
    hide NextLevel;
  }

  /** Level `k` over the next level is level `k + 1` over the leaves. */
  lemma {:induction false} NodeShift(sha: HashFn, xs: seq<Hash>, k: nat, i: nat)
    requires xs != [] && i < Width(|xs|, k + 1)
    ensures i < Width(|NextLevel(sha, xs)|, k)
    ensures Node(sha, NextLevel(sha, xs), k, i) == Node(sha, xs, k + 1, i)
    decreases k
  {
    hide *;
    WidthShift(|xs|, k);
    if k == 0 {
      NodeShiftLeaf(sha, xs, k, i);
    } else {
      WidthShift(|xs|, k - 1);
      NodeUnfold(sha, xs, k, i);
      NodeUnfold(sha, NextLevel(sha, xs), k - 1, i);
      NodeShift(sha, xs, k - 1, 2 * i);
      NodeShift(sha, xs, k - 1, RightChild(Width(|xs|, k), i));
    }
  }

  /** Replacing the leaves by the next level keeps the root. */
  lemma RootOfNextLevel(sha: HashFn, xs: seq<Hash>)
    requires |xs| > 1
    ensures Root(sha, xs) == Root(sha, NextLevel(sha, xs))
  {
    NodeShift(sha, xs, Depth(|xs|) - 1, 0) by { DepthIsLast(|xs|); }
  }

  /** ... and drops the first entry of the branch. */
  lemma PathOfNextLevel(sha: HashFn, xs: seq<Hash>)
    requires |xs| > 1
    ensures Path(sha, xs) == [xs[1]] + Path(sha, NextLevel(sha, xs))
  {
    var ys := NextLevel(sha, xs);
    assert |Path(sha, xs)| == 1 + |Path(sha, ys)|;
    SiblingExists(|xs|, 0);
    assert Path(sha, xs)[0] == Node(sha, xs, 0, 1);
    forall k | 0 <= k < Depth(|ys|) ensures Path(sha, xs)[k + 1] == Path(sha, ys)[k] {
      SiblingExists(|xs|, k + 1);
      NodeShift(sha, xs, k, 1);
    }
  }

  lemma PathOfOne(sha: HashFn, xs: seq<Hash>)
    requires |xs| == 1
    ensures Path(sha, xs) == [] && Root(sha, xs) == xs[0]
  {
  }

  // ------------------------------------------------------------------
  // The loops of the source
  // ------------------------------------------------------------------

  /** The inner loop both functions contain. */
  method ComputeNextLevel(sha: HashFn, hashes: seq<Hash>) returns (next: seq<Hash>)
    requires hashes != []
    ensures next == NextLevel(sha, hashes)
    ensures |next| == (|hashes| + 1) / 2
    ensures forall i :: 0 <= i < |next| ==>
      next[i] == sha(Join(hashes[2 * i], hashes[if 2 * i + 1 < |hashes| then 2 * i + 1 else |hashes| - 1]))
  {
    var half := (|hashes| + 1) / 2;
    next := [];
    for idx := 0 to half
      invariant next == NextLevel(sha, hashes)[..idx]
    {
      var left := hashes[2 * idx];
      var right := hashes[if 2 * idx + 1 < |hashes| then 2 * idx + 1 else |hashes| - 1];
      next := next + [Pair(sha, left, right)];
    }
  }

  /** `merkle_path` returns the branch of leaf 0 in the tree over coinbase and txids. */
  method MerklePath(sha: HashFn, coinbaseTxid: Hash, txids: seq<Hash>) returns (branch: seq<Hash>)
    ensures branch == Path(sha, [coinbaseTxid] + txids)
  {
    var hashes := [coinbaseTxid];
    hashes := hashes + txids;
    if |hashes| == 1 {
      PathOfOne(sha, hashes);
      return [];
    }
    branch := [];
    while |hashes| > 1
      invariant hashes != []
      invariant branch + Path(sha, hashes) == Path(sha, [coinbaseTxid] + txids)
      decreases |hashes|
    {
      PathOfNextLevel(sha, hashes);
      branch := branch + [hashes[1]];
      hashes := ComputeNextLevel(sha, hashes);
    }
    PathOfOne(sha, hashes);
  }

  /** `compute_merkle_root_from_txids` returns the root of that same tree. */
  method ComputeMerkleRoot(sha: HashFn, coinbaseTxid: Hash, txids: seq<Hash>) returns (root: Hash)
    ensures root == Root(sha, [coinbaseTxid] + txids)
  {
    var hashes := [coinbaseTxid];
    hashes := hashes + txids;
    if |hashes| == 0 {
      assert false;
    }
    while |hashes| > 1
      invariant hashes != []
      invariant Root(sha, hashes) == Root(sha, [coinbaseTxid] + txids)
      decreases |hashes|
    {
      RootOfNextLevel(sha, hashes);
      hashes := ComputeNextLevel(sha, hashes);
    }
    PathOfOne(sha, hashes);
    root := hashes[0];
  }

  // ------------------------------------------------------------------
  // Path and root agree
  // ------------------------------------------------------------------

  /** Folding the branch from leaf 0 gives the root. */
  lemma {:induction false} FoldOfPathIsRoot(sha: HashFn, xs: seq<Hash>)
    requires xs != []
    ensures Fold(sha, xs[0], Path(sha, xs)) == Root(sha, xs)
    decreases |xs|
  {
    if |xs| == 1 {
      PathOfOne(sha, xs);
    } else {
      var ys := NextLevel(sha, xs);
      PathOfNextLevel(sha, xs);
      RootOfNextLevel(sha, xs);
      FoldOfPathIsRoot(sha, ys);
      assert Path(sha, xs)[1..] == Path(sha, ys);
    }
  }

  /** The branch of leaf 0 does not depend on leaf 0. */
  lemma {:induction false} PathIgnoresFirstLeaf(sha: HashFn, xs: seq<Hash>, ys: seq<Hash>)
    requires xs != [] && ys != [] && xs[1..] == ys[1..]
    ensures Path(sha, xs) == Path(sha, ys)
    decreases |xs|
  {
    assert |xs| == |xs[1..]| + 1 == |ys|;
    if |xs| > 1 {
      assert forall i :: 1 <= i < |xs| ==> xs[i] == xs[1..][i - 1] == ys[i];
      var xs', ys' := NextLevel(sha, xs), NextLevel(sha, ys);
      assert xs'[1..] == ys'[1..];
      PathIgnoresFirstLeaf(sha, xs', ys');
      PathOfNextLevel(sha, xs);
      PathOfNextLevel(sha, ys);
    }
  }

  /**
   * What the engine relies on: a path computed with one coinbase txid, folded from any other
   * coinbase txid, is the root over that other coinbase and the same transactions.
   */
  lemma PathServesEveryCoinbase(sha: HashFn, declared: Hash, actual: Hash, txids: seq<Hash>)
    ensures Fold(sha, actual, Path(sha, [declared] + txids)) == Root(sha, [actual] + txids)
  {
    PathIgnoresFirstLeaf(sha, [declared] + txids, [actual] + txids);
    FoldOfPathIsRoot(sha, [actual] + txids);
  }

  /** The three smallest trees in full: a pair is hashed left to right, a lone node with itself. */
  lemma SmallTrees(sha: HashFn, a: Hash, b: Hash, c: Hash)
    ensures Root(sha, [a]) == a && Path(sha, [a]) == []
    ensures Root(sha, [a, b]) == sha(a + b) && Path(sha, [a, b]) == [b]
    ensures Root(sha, [a, b, c]) == sha(sha(a + b) + sha(c + c)) && Path(sha, [a, b, c]) == [b, sha(c + c)]
    ensures Fold(sha, a, [b, c]) == sha(sha(a + b) + c)
  {
    PathOfOne(sha, [a]);
    assert NextLevel(sha, [a, b]) == [sha(a + b)];
    RootOfNextLevel(sha, [a, b]);
    PathOfNextLevel(sha, [a, b]);
    PathOfOne(sha, [sha(a + b)]);
    var up := [sha(a + b), sha(c + c)];
    assert NextLevel(sha, [a, b, c]) == up;
    RootOfNextLevel(sha, [a, b, c]);
    PathOfNextLevel(sha, [a, b, c]);
    assert NextLevel(sha, up) == [sha(sha(a + b) + sha(c + c))];
    RootOfNextLevel(sha, up);
    PathOfNextLevel(sha, up);
    PathOfOne(sha, [sha(sha(a + b) + sha(c + c))]);
    assert [b, c][1..] == [c] && [c][1..] == [];
    assert Fold(sha, a, [b, c]) == Fold(sha, sha(a + b), [c]) == Fold(sha, sha(sha(a + b) + c), []);
  }

  // ------------------------------------------------------------------
  // Commitment
  // ------------------------------------------------------------------

  /** The strings hashed to build the level above `xs`. */
  function Hashed(xs: seq<Hash>): seq<Bytes>
    requires xs != []
  {
    seq(Half(|xs|), i requires 0 <= i < Half(|xs|) =>
      Join(xs[2 * i], xs[RightChild(|xs|, i)]))
  }

  /** Every string hashed while building the tree over `xs`. */
  function AllHashed(sha: HashFn, xs: seq<Hash>): seq<Bytes>
    requires xs != []
    decreases |xs|
  {
    if |xs| == 1 then [] else Hashed(xs) + AllHashed(sha, NextLevel(sha, xs))
  }

  /** Two different strings, one hashed in each tree, with the same hash. */
  ghost predicate Collides(sha: HashFn, xs: seq<Hash>, ys: seq<Hash>)
    requires xs != [] && ys != []
  {
    exists a, b :: a in AllHashed(sha, xs) && b in AllHashed(sha, ys) && a != b && sha(a) == sha(b)
  }

  lemma CollisionBelow(sha: HashFn, xs: seq<Hash>, ys: seq<Hash>, i: nat)
    requires |xs| == |ys| > 1 && i < Half(|xs|)
    requires Hashed(xs)[i] != Hashed(ys)[i]
    requires NextLevel(sha, xs)[i] == NextLevel(sha, ys)[i]
    ensures Collides(sha, xs, ys)
  {
    hide Join;
    assert Hashed(xs)[i] in AllHashed(sha, xs) && Hashed(ys)[i] in AllHashed(sha, ys);
    assert sha(Hashed(xs)[i]) == NextLevel(sha, xs)[i];
    assert sha(Hashed(ys)[i]) == NextLevel(sha, ys)[i];
  }

  lemma CollisionAbove(sha: HashFn, xs: seq<Hash>, ys: seq<Hash>)
    requires |xs| > 1 && |ys| > 1
    requires Collides(sha, NextLevel(sha, xs), NextLevel(sha, ys))
    ensures Collides(sha, xs, ys)
  {
    var a, b :| a in AllHashed(sha, NextLevel(sha, xs)) && b in AllHashed(sha, NextLevel(sha, ys))
      && a != b && sha(a) == sha(b);
    assert a in AllHashed(sha, xs) && b in AllHashed(sha, ys);
  }

  /** Equal hashed strings mean equal children: both halves have 32 bytes. */
  lemma SameHashedSameLeaves(xs: seq<Hash>, ys: seq<Hash>, j: nat)
    requires |xs| == |ys| && j < |xs| && Hashed(xs)[j / 2] == Hashed(ys)[j / 2]
    ensures xs[j] == ys[j]
  {
    var i := j / 2;
    var right := RightChild(|xs|, i);
    assert Join(xs[2 * i], xs[right]) == Join(ys[2 * i], ys[right]);
  }

  /** Equal roots over equally many leaves: equal leaves, or a collision inside the two trees. */
  lemma {:induction false} RootCommits(sha: HashFn, xs: seq<Hash>, ys: seq<Hash>)
    requires |xs| == |ys| > 0 && Root(sha, xs) == Root(sha, ys)
    ensures xs == ys || Collides(sha, xs, ys)
    decreases |xs|
  {
    if |xs| > 1 && xs != ys {
      RootOfNextLevel(sha, xs);
      RootOfNextLevel(sha, ys);
      RootCommits(sha, NextLevel(sha, xs), NextLevel(sha, ys));
      if NextLevel(sha, xs) == NextLevel(sha, ys) {
        var j :| 0 <= j < |xs| && xs[j] != ys[j];
        if Hashed(xs)[j / 2] == Hashed(ys)[j / 2] { SameHashedSameLeaves(xs, ys, j); }
        CollisionBelow(sha, xs, ys, j / 2);
      } else {
        CollisionAbove(sha, xs, ys);
      }
    } else if |xs| == 1 {
      PathOfOne(sha, xs);
      PathOfOne(sha, ys);
    }
  }

  /** Equal branches over equally many leaves fix every leaf but the first, or collide. */
  lemma {:induction false} PathCommits(sha: HashFn, xs: seq<Hash>, ys: seq<Hash>)
    requires |xs| == |ys| > 0 && Path(sha, xs) == Path(sha, ys)
    ensures xs[1..] == ys[1..] || Collides(sha, xs, ys)
    decreases |xs|
  {
    if |xs| > 1 && xs[1..] != ys[1..] {
      var xs', ys' := NextLevel(sha, xs), NextLevel(sha, ys);
      PathOfNextLevel(sha, xs);
      PathOfNextLevel(sha, ys);
      assert Path(sha, xs)[0] == xs[1] && Path(sha, ys)[0] == ys[1];
      assert Path(sha, xs') == Path(sha, xs)[1..] == Path(sha, ys)[1..] == Path(sha, ys');
      PathCommits(sha, xs', ys');
      if xs'[1..] == ys'[1..] {
        var j :| 0 <= j < |xs[1..]| && xs[1..][j] != ys[1..][j];
        assert j + 1 >= 2;
        if Hashed(xs)[(j + 1) / 2] == Hashed(ys)[(j + 1) / 2] { SameHashedSameLeaves(xs, ys, j + 1); }
        assert xs'[(j + 1) / 2] == xs'[1..][(j + 1) / 2 - 1] == ys'[(j + 1) / 2];
        CollisionBelow(sha, xs, ys, (j + 1) / 2);
      } else {
        CollisionAbove(sha, xs, ys);
      }
    }
  }

  /**
   * Why the number of leaves must be known: with an odd number above one, repeating the last
   * leaf changes neither the root nor, for every hash function, anything above the leaves.
   */
  lemma OddListHasALongerTwin(sha: HashFn, xs: seq<Hash>)
    requires |xs| > 1 && |xs| % 2 == 1
    ensures var twin := xs + [xs[|xs| - 1]];
      twin != xs && Root(sha, twin) == Root(sha, xs) && Path(sha, twin) == Path(sha, xs)
  {
    var twin := xs + [xs[|xs| - 1]];
    assert NextLevel(sha, twin) == NextLevel(sha, xs);
    RootOfNextLevel(sha, xs);
    RootOfNextLevel(sha, twin);
    PathOfNextLevel(sha, xs);
    PathOfNextLevel(sha, twin);
  }

  // ------------------------------------------------------------------
  // Exactly which lists share a root or a branch
  // ------------------------------------------------------------------

  function Pow2(d: nat): (p: nat)
    ensures p > 0
  {
    if d == 0 then 1 else 2 * Pow2(d - 1)
  }

  /** The leaf that stands at position `j` of the full tree, once odd levels have repeated their last node. */
  function Spread(n: nat, j: nat): (i: nat)
    requires n > 0
    ensures i < n
    decreases n
  {
    if n == 1 then 0
    else
      var i := Spread(Half(n), j / 2);
      if j % 2 == 0 then 2 * i else RightChild(n, i)
  }

  /** The leaves with every repetition written out: a list as long as a power of two. */
  function Padded(xs: seq<Hash>): (ys: seq<Hash>)
    requires xs != []
    ensures |ys| == Pow2(Depth(|xs|))
  {
    seq(Pow2(Depth(|xs|)), j requires 0 <= j < Pow2(Depth(|xs|)) => xs[Spread(|xs|, j)])
  }

  lemma PaddedPair(xs: seq<Hash>, i: nat)
    requires |xs| > 1 && i < Pow2(Depth(|xs|) - 1)
    ensures Pow2(Depth(|xs|)) == 2 * Pow2(Depth(|xs|) - 1) && i < Half(|Padded(xs)|)
    ensures var at := Spread(Half(|xs|), i);
      Padded(xs)[2 * i] == xs[2 * at] && Padded(xs)[2 * i + 1] == xs[RightChild(|xs|, at)]
  {
    hide RightChild;
    assert (2 * i) / 2 == i && (2 * i + 1) / 2 == i && (2 * i) % 2 == 0 && (2 * i + 1) % 2 == 1;
  }

  lemma PaddedHashed(xs: seq<Hash>, i: nat)
    requires |xs| > 1 && i < Pow2(Depth(|xs|) - 1)
    ensures |Padded(xs)| > 1 && Half(|Padded(xs)|) == Pow2(Depth(|xs|) - 1)
    ensures Hashed(Padded(xs))[i] == Hashed(xs)[Spread(Half(|xs|), i)]
  {
    PaddedPair(xs, i);
    var ps, at := Padded(xs), Spread(Half(|xs|), i);
    hide Join, Spread, Padded, Depth;
    assert Hashed(ps)[i] == Join(ps[2 * i], ps[RightChild(|ps|, i)]);
    assert Hashed(xs)[at] == Join(xs[2 * at], xs[RightChild(|xs|, at)]);
    assert RightChild(|ps|, i) == 2 * i + 1;
  }

  lemma NextLevelIsHashed(sha: HashFn, xs: seq<Hash>, i: nat)
    requires xs != [] && i < Half(|xs|)
    ensures NextLevel(sha, xs)[i] == sha(Hashed(xs)[i])
  {
  }

  /** Padding and going one level up commute, and padding brings no new string to hash. */
  lemma PaddedNextLevel(sha: HashFn, xs: seq<Hash>)
    requires |xs| > 1
    ensures |Padded(xs)| > 1 && NextLevel(sha, Padded(xs)) == Padded(NextLevel(sha, xs))
    ensures forall b :: b in Hashed(Padded(xs)) ==> b in Hashed(xs)
  {
    var ps, ys := Padded(xs), NextLevel(sha, xs);
    PaddedHashed(xs, 0);
    assert |Padded(ys)| == Half(|ps|) == |Hashed(ps)|;
    forall i: nat | i < Half(|ps|) ensures NextLevel(sha, ps)[i] == Padded(ys)[i] && Hashed(ps)[i] in Hashed(xs) {
      PaddedHashed(xs, i);
      var at := Spread(Half(|xs|), i);
      NextLevelIsHashed(sha, xs, at);
      NextLevelIsHashed(sha, ps, i);
      assert Padded(ys)[i] == ys[at];
      assert |Hashed(xs)| == Half(|xs|);
      hide Hashed, NextLevel, Padded, Spread, Half;
    }
    hide Hashed, NextLevel, Padded, Spread, Half;
  }

  /** Padding changes neither root nor branch, and hashes nothing new. */
  lemma {:induction false} PaddedTree(sha: HashFn, xs: seq<Hash>)
    requires xs != []
    ensures Root(sha, Padded(xs)) == Root(sha, xs) && Path(sha, Padded(xs)) == Path(sha, xs)
    ensures forall b :: b in AllHashed(sha, Padded(xs)) ==> b in AllHashed(sha, xs)
    decreases |xs|
  {
    if |xs| == 1 {
      assert Padded(xs) == xs;
    } else {
      var ps, ys := Padded(xs), NextLevel(sha, xs);
      PaddedPair(xs, 0);
      PaddedNextLevel(sha, xs);
      PaddedTree(sha, ys);
      SecondPadded(xs);
      assert AllHashed(sha, ps) == Hashed(ps) + AllHashed(sha, NextLevel(sha, ps));
      assert AllHashed(sha, xs) == Hashed(xs) + AllHashed(sha, ys);
      hide Padded, NextLevel, Root, Path, Hashed, AllHashed;
      RootOfNextLevel(sha, xs);
      RootOfNextLevel(sha, ps);
      PathOfNextLevel(sha, xs);
      PathOfNextLevel(sha, ps);
    }
  }

  lemma {:induction false} SpreadOfZero(n: nat)
    requires n > 0
    ensures Spread(n, 0) == 0
    decreases n
  {
    if n > 1 { SpreadOfZero(Half(n)); }
  }

  lemma SecondPadded(xs: seq<Hash>)
    requires |xs| > 1
    ensures |Padded(xs)| > 1 && Padded(xs)[1] == xs[1] && Padded(xs)[0] == xs[0]
  {
    PaddedPair(xs, 0);
    SpreadOfZero(Half(|xs|));
  }

  lemma CollidesUnpadded(sha: HashFn, xs: seq<Hash>, ys: seq<Hash>)
    requires xs != [] && ys != [] && Collides(sha, Padded(xs), Padded(ys))
    ensures Collides(sha, xs, ys)
  {
    PaddedTree(sha, xs);
    PaddedTree(sha, ys);
    hide Padded, AllHashed;
  }

  /**
   * Lists of one depth, whatever their lengths, have the same root if their padded forms are
   * equal, and only then unless the two trees contain a hash collision.
   */
  lemma SameDepthRootsIff(sha: HashFn, xs: seq<Hash>, ys: seq<Hash>)
    requires xs != [] && ys != [] && Depth(|xs|) == Depth(|ys|)
    ensures Padded(xs) == Padded(ys) ==> Root(sha, xs) == Root(sha, ys)
    ensures Root(sha, xs) == Root(sha, ys) ==> Padded(xs) == Padded(ys) || Collides(sha, xs, ys)
  {
    PaddedTree(sha, xs);
    PaddedTree(sha, ys);
    hide Root, Path, AllHashed, Spread;
    if Root(sha, xs) == Root(sha, ys) {
      RootCommits(sha, Padded(xs), Padded(ys));
      if Padded(xs) != Padded(ys) { CollidesUnpadded(sha, xs, ys); }
    }
  }

  /**
   * Any two lists have the same branch if their padded forms agree from the second leaf on,
   * and only then unless the two trees contain a hash collision.
   */
  lemma PathsIff(sha: HashFn, xs: seq<Hash>, ys: seq<Hash>)
    requires xs != [] && ys != []
    ensures Padded(xs)[1..] == Padded(ys)[1..] ==> Path(sha, xs) == Path(sha, ys)
    ensures Path(sha, xs) == Path(sha, ys) ==> Padded(xs)[1..] == Padded(ys)[1..] || Collides(sha, xs, ys)
  {
    PaddedTree(sha, xs);
    PaddedTree(sha, ys);
    assert |Path(sha, xs)| == Depth(|xs|) && |Path(sha, ys)| == Depth(|ys|);
    hide Root, Path, AllHashed, Spread;
    if Padded(xs)[1..] == Padded(ys)[1..] {
      PathIgnoresFirstLeaf(sha, Padded(xs), Padded(ys));
    }
    if Path(sha, xs) == Path(sha, ys) {
      PathCommits(sha, Padded(xs), Padded(ys));
      if Padded(xs)[1..] != Padded(ys)[1..] { CollidesUnpadded(sha, xs, ys); }
    }
  }

  /** The list `k` levels up. */
  function Lifted(sha: HashFn, xs: seq<Hash>, k: nat): (ys: seq<Hash>)
    requires xs != [] && k <= Depth(|xs|)
    ensures ys != [] && Depth(|ys|) == Depth(|xs|) - k
    decreases k
  {
    if k == 0 then xs else Lifted(sha, NextLevel(sha, xs), k - 1)
  }

  lemma HashedAbove(sha: HashFn, xs: seq<Hash>)
    requires |xs| > 1
    ensures forall b :: b in AllHashed(sha, NextLevel(sha, xs)) ==> b in AllHashed(sha, xs)
  {
    hide NextLevel, Hashed;
    assert AllHashed(sha, xs) == Hashed(xs) + AllHashed(sha, NextLevel(sha, xs));
  }

  lemma {:induction false} LiftedTree(sha: HashFn, xs: seq<Hash>, k: nat)
    requires xs != [] && k <= Depth(|xs|)
    ensures Root(sha, Lifted(sha, xs, k)) == Root(sha, xs)
    ensures forall b :: b in AllHashed(sha, Lifted(sha, xs, k)) ==> b in AllHashed(sha, xs)
    decreases k
  {
    hide Half, Root, AllHashed, NextLevel, Hashed;
    if k > 0 {
      var ys := NextLevel(sha, xs);
      LiftedTree(sha, ys, k - 1);
      RootOfNextLevel(sha, xs);
      HashedAbove(sha, xs);
    }
  }

  /**
   * And for all lists: with the deeper one lifted to the depth of the other, the roots are the
   * same if the padded forms are, and only then unless the two trees contain a hash collision.
   */
  lemma RootsIff(sha: HashFn, xs: seq<Hash>, ys: seq<Hash>)
    requires xs != [] && ys != [] && Depth(|xs|) >= Depth(|ys|)
    ensures var up := Lifted(sha, xs, Depth(|xs|) - Depth(|ys|));
      && (Padded(up) == Padded(ys) ==> Root(sha, xs) == Root(sha, ys))
      && (Root(sha, xs) == Root(sha, ys) ==> Padded(up) == Padded(ys) || Collides(sha, xs, ys))
  {
    hide Root, Padded, AllHashed, Lifted;
    var k := Depth(|xs|) - Depth(|ys|);
    LiftedTree(sha, xs, k);
    SameDepthRootsIff(sha, Lifted(sha, xs, k), ys);
  }

  lemma {:induction false} SpreadKeepsIndex(n: nat, j: nat)
    requires j < n
    ensures Spread(n, j) == j
    decreases n
  {
    if n > 1 { SpreadKeepsIndex(Half(n), j / 2); }
  }

  lemma {:induction false} LeavesFit(n: nat)
    requires n > 0
    ensures n <= Pow2(Depth(n))
    decreases n
  {
    if n > 1 { LeavesFit(Half(n)); }
  }

  /** Padding only appends: it starts with the list itself, so lists of one length pad alike only if equal. */
  lemma PaddedStartsWithList(xs: seq<Hash>)
    requires xs != []
    ensures |xs| <= |Padded(xs)| && Padded(xs)[..|xs|] == xs
  {
    LeavesFit(|xs|);
    forall j | 0 <= j < |xs| ensures Padded(xs)[j] == xs[j] {
      SpreadKeepsIndex(|xs|, j);
    }
  }
}
