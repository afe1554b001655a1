/**
 * Binding across sizes. A tree is determined by its leaves padded on every level: two lists of
 * one height have one root exactly when these padded forms agree, or they give a collision.
 */
module MerkleShape {
  import opened Bytes
  import opened Merkle

  // ----- The padded form -----

  /** In a tree over `n` leaves padded on every level, the leaf of which place `i` is a copy. */
  function Source(n: nat, i: nat): (k: nat)
    requires n >= 1
    ensures k < n
    decreases n
  {
    if n == 1 then 0
    else
      var k := 2 * Source((n + 1) / 2, i / 2) + i % 2;
      if k < n then k else n - 1
  }

  /** The leaves of the perfect tree of that height. */
  function Complete(leaves: seq<Bytes32>): (r: seq<Bytes32>)
    requires leaves != []
    ensures |r| == Pow2(Height(|leaves|))
    ensures forall i :: 0 <= i < |r| ==> r[i] == leaves[Source(|leaves|, i)]
  {
    seq(Pow2(Height(|leaves|)), (i: nat) requires i < Pow2(Height(|leaves|)) => leaves[Source(|leaves|, i)])
  }

  lemma {:induction false} HeightOfPow2(k: nat)
    ensures Height(Pow2(k)) == k
    decreases k
  {
    if k > 0 {
      HeightOfPow2(k - 1);
      assert (Pow2(k) + 1) / 2 == Pow2(k - 1);
    }
  }

  lemma CompleteOfOne(leaves: seq<Bytes32>)
    requires |leaves| == 1
    ensures Complete(leaves) == leaves
  {
  }

  /** The node itself, or the last one where that is missing. */
  function OrLast(k: nat, n: nat): nat
    requires n >= 1
  {
    if k < n then k else n - 1
  }

  /** Two neighbours of the padded form are copies of the two children of one node. */
  lemma SourceOfNeighbours(n: nat, k: nat)
    requires n >= 2
    ensures var s := Source((n + 1) / 2, k);
      2 * s < n && Source(n, 2 * k) == 2 * s && Source(n, 2 * k + 1) == OrLast(2 * s + 1, n)
  {
    assert (2 * k) / 2 == k && (2 * k) % 2 == 0;
    assert (2 * k + 1) / 2 == k && (2 * k + 1) % 2 == 1;
  }

  /** `up` holds the hashes of the neighbours in `level`, the last one paired with itself if it is alone. */
  predicate IsAbove(h: HashPair, level: seq<Bytes32>, up: seq<Bytes32>) {
    |up| == (|level| + 1) / 2
    && forall k :: 0 <= k < |up| ==> up[k] == h(level[2 * k], level[OrLast(2 * k + 1, |level|)])
  }

  lemma HashPairsIsAbove(h: HashPair, level: seq<Bytes32>)
    ensures IsAbove(h, level, HashPairs(h, level))
  {
    var padded, up := Pad(level), HashPairs(h, level);
    assert padded[..|level|] == level;
    forall k | 0 <= k < |up|
      ensures up[k] == h(level[2 * k], level[OrLast(2 * k + 1, |level|)])
    {
      assert padded[2 * k] == level[2 * k];
      assert 2 * k + 1 < |level| ==> padded[2 * k + 1] == level[2 * k + 1];
    }
  }

  lemma OneAbove(h: HashPair, level: seq<Bytes32>, up: seq<Bytes32>, other: seq<Bytes32>)
    requires IsAbove(h, level, up) && IsAbove(h, level, other)
    ensures up == other
  {
  }

  lemma AboveIsHashed(h: HashPair, level: seq<Bytes32>, up: seq<Bytes32>)
    requires IsAbove(h, level, up)
    ensures HashPairs(h, level) == up
  {
    HashPairsIsAbove(h, level);
    OneAbove(h, level, up, HashPairs(h, level));
  }

  lemma CompleteDoubles(leaves: seq<Bytes32>, up: seq<Bytes32>)
    requires |leaves| >= 2 && |up| == (|leaves| + 1) / 2
    ensures |Complete(leaves)| == 2 * |Complete(up)|
  {
  }

  lemma AboveCompleteAt(h: HashPair, leaves: seq<Bytes32>, up: seq<Bytes32>, k: nat)
    requires |leaves| >= 2 && IsAbove(h, leaves, up) && |Complete(leaves)| == 2 * |Complete(up)|
    requires k < |Complete(up)|
    ensures Complete(up)[k] == h(Complete(leaves)[2 * k], Complete(leaves)[2 * k + 1])
  {
    hide Source, Complete, Height, Pow2;
    var s, n := Source(|up|, k), |leaves|;
    SourceOfNeighbours(n, k);
    assert Complete(leaves)[2 * k] == leaves[2 * s];
    assert Complete(leaves)[2 * k + 1] == leaves[OrLast(2 * s + 1, n)];
  }

  lemma AboveComplete(h: HashPair, leaves: seq<Bytes32>, up: seq<Bytes32>)
    requires |leaves| >= 2 && IsAbove(h, leaves, up)
    ensures IsAbove(h, Complete(leaves), Complete(up))
  {
    CompleteDoubles(leaves, up);
    forall k | 0 <= k < |Complete(up)|
      ensures Complete(up)[k] == h(Complete(leaves)[2 * k], Complete(leaves)[2 * k + 1])
    {
      AboveCompleteAt(h, leaves, up, k);
    }
  }

  /** Hashing and padding commute. */
  lemma HashPairsOfComplete(h: HashPair, leaves: seq<Bytes32>)
    requires |leaves| >= 2
    ensures HashPairs(h, Complete(leaves)) == Complete(HashPairs(h, leaves))
  {
    HashPairsIsAbove(h, leaves);
    AboveComplete(h, leaves, HashPairs(h, leaves));
    AboveIsHashed(h, Complete(leaves), Complete(HashPairs(h, leaves)));
  }

  /** A tree and its padded form have one root. */
  lemma {:induction false} CompleteKeepsRoot(h: HashPair, leaves: seq<Bytes32>)
    requires leaves != []
    ensures BuildLevel(h, Complete(leaves)) == BuildLevel(h, leaves)
    decreases |leaves|
  {
    if |leaves| == 1 {
      CompleteOfOne(leaves);
    } else {
      HashPairsOfComplete(h, leaves);
      CompleteKeepsRoot(h, HashPairs(h, leaves));
      assert |Complete(leaves)| >= 2;
    }
  }

  // ----- The root from the top -----

  /** The root of a perfect tree, as Merkle trees are defined: the hash of the roots of its halves. */
  function PerfectRoot(h: HashPair, leaves: seq<Bytes32>, height: nat): Bytes32
    requires |leaves| == Pow2(height)
    decreases height
  {
    if height == 0 then leaves[0]
    else
      var half := Pow2(height - 1);
      h(PerfectRoot(h, leaves[..half], height - 1), PerfectRoot(h, leaves[half..], height - 1))
  }

  lemma AboveBoth(h: HashPair, a: seq<Bytes32>, b: seq<Bytes32>, up: seq<Bytes32>, vp: seq<Bytes32>)
    requires |a| % 2 == 0 && |b| % 2 == 0 && IsAbove(h, a, up) && IsAbove(h, b, vp)
    ensures IsAbove(h, a + b, up + vp)
  {
    var m := |up|;
    forall k | 0 <= k < m + |vp|
      ensures (up + vp)[k] == h((a + b)[2 * k], (a + b)[2 * k + 1])
    {
      if k >= m {
        assert vp[k - m] == h(b[2 * (k - m)], b[2 * (k - m) + 1]);
        assert (a + b)[2 * k] == b[2 * (k - m)] && (a + b)[2 * k + 1] == b[2 * (k - m) + 1];
      }
    }
  }

  lemma HashPairsOfBoth(h: HashPair, a: seq<Bytes32>, b: seq<Bytes32>)
    requires |a| % 2 == 0 && |b| % 2 == 0
    ensures HashPairs(h, a + b) == HashPairs(h, a) + HashPairs(h, b)
  {
    HashPairsIsAbove(h, a);
    HashPairsIsAbove(h, b);
    AboveBoth(h, a, b, HashPairs(h, a), HashPairs(h, b));
    AboveIsHashed(h, a + b, HashPairs(h, a) + HashPairs(h, b));
  }

  lemma PerfectOfHalves(h: HashPair, a: seq<Bytes32>, b: seq<Bytes32>, height: nat)
    requires |a| == |b| == Pow2(height)
    ensures |a + b| == Pow2(height + 1)
    ensures PerfectRoot(h, a + b, height + 1) == h(PerfectRoot(h, a, height), PerfectRoot(h, b, height))
  {
    assert (a + b)[..|a|] == a && (a + b)[|a|..] == b;
  }

  lemma HalvesOfPow2(leaves: seq<Bytes32>, height: nat) returns (a: seq<Bytes32>, b: seq<Bytes32>)
    requires height >= 1 && |leaves| == Pow2(height)
    ensures a + b == leaves && |a| == |b| == Pow2(height - 1)
    ensures height >= 2 ==> |a| == 2 * Pow2(height - 2) && |a| % 2 == 0
  {
    a, b := leaves[..Pow2(height - 1)], leaves[Pow2(height - 1)..];
  }

  lemma PerfectPair(h: HashPair, leaves: seq<Bytes32>)
    requires |leaves| == Pow2(1)
    ensures |HashPairs(h, leaves)| == Pow2(0)
    ensures PerfectRoot(h, HashPairs(h, leaves), 0) == PerfectRoot(h, leaves, 1)
  {
    HashPairsIsAbove(h, leaves);
    assert Pow2(0) == 1;
  }

  /** Hashing the lowest level of a perfect tree leaves its root as it was. */
  lemma {:induction false} PerfectLevel(h: HashPair, leaves: seq<Bytes32>, height: nat)
    requires |leaves| == Pow2(height + 1)
    ensures |HashPairs(h, leaves)| == Pow2(height)
    ensures PerfectRoot(h, HashPairs(h, leaves), height) == PerfectRoot(h, leaves, height + 1)
    decreases height
  {
    hide PerfectRoot, Pow2, HashPairs;
    if height == 0 {
      PerfectPair(h, leaves);
    } else {
      var a, b := HalvesOfPow2(leaves, height + 1);
      PerfectLevel(h, a, height - 1);
      PerfectLevel(h, b, height - 1);
      HashPairsOfBoth(h, a, b);
      PerfectOfHalves(h, a, b, height);
      PerfectOfHalves(h, HashPairs(h, a), HashPairs(h, b), height - 1);
    }
  }

  lemma OneIsPerfect(h: HashPair, leaves: seq<Bytes32>)
    requires |leaves| == Pow2(0)
    ensures BuildLevel(h, leaves) == PerfectRoot(h, leaves, 0)
  {
  }

  lemma LevelBuilt(h: HashPair, level: seq<Bytes32>)
    requires |level| >= 2
    ensures BuildLevel(h, level) == BuildLevel(h, HashPairs(h, level))
  {
  }

  lemma {:induction false} LevelsBuildPerfect(h: HashPair, leaves: seq<Bytes32>, height: nat)
    requires |leaves| == Pow2(height)
    ensures BuildLevel(h, leaves) == PerfectRoot(h, leaves, height)
    decreases height
  {
    if height == 0 {
      OneIsPerfect(h, leaves);
    } else {
      hide PerfectRoot, BuildLevel, HashPairs;
      PerfectLevel(h, leaves, height - 1);
      LevelsBuildPerfect(h, HashPairs(h, leaves), height - 1);
      LevelBuilt(h, leaves);
    }
  }

  /**
   * What the root is, for every tree: the root of the perfect tree over its padded leaves, each
   * node the hash of its left and its right half.
   */
  lemma RootIsPerfect(h: HashPair, leaves: seq<Bytes32>)
    requires leaves != []
    ensures Root(h, leaves) == PerfectRoot(h, Complete(leaves), Height(|leaves|))
  {
    CompleteKeepsRoot(h, leaves);
    LevelsBuildPerfect(h, Complete(leaves), Height(|leaves|));
  }

  // ----- Binding -----

  /**
   * Lists of one height, whatever their sizes: one root if and only if the padded forms are
   * the same, unless the padded forms give a collision of the pair hash.
   */
  lemma HeightBinds(h: HashPair, xs: seq<Bytes32>, ys: seq<Bytes32>)
    requires xs != [] && ys != [] && Height(|xs|) == Height(|ys|)
    ensures Complete(xs) == Complete(ys) ==> Root(h, xs) == Root(h, ys)
    ensures Root(h, xs) == Root(h, ys) ==>
      Complete(xs) == Complete(ys)
      || (|Complete(xs)| > 1 && IsCollision(h, RootCollision(h, Complete(xs), Complete(ys))))
  {
    CompleteKeepsRoot(h, xs);
    CompleteKeepsRoot(h, ys);
    if Root(h, xs) == Root(h, ys) {
      LevelsBind(h, Complete(xs), Complete(ys));
    }
  }

  /** Lists of one size have one padded form only if they are the same: every leaf has a place of its own. */
  lemma {:induction false} EveryLeafHasPlace(n: nat, k: nat) returns (i: nat)
    requires k < n
    ensures i < Pow2(Height(n)) && Source(n, i) == k
    decreases n
  {
    if n == 1 {
      i := 0;
    } else {
      var j := EveryLeafHasPlace((n + 1) / 2, k / 2);
      i := 2 * j + k % 2;
      assert i / 2 == j && i % 2 == k % 2;
    }
  }

  lemma CompleteIsInjective(xs: seq<Bytes32>, ys: seq<Bytes32>)
    requires |xs| == |ys| >= 1 && Complete(xs) == Complete(ys)
    ensures xs == ys
  {
    forall k | 0 <= k < |xs|
      ensures xs[k] == ys[k]
    {
      var i := EveryLeafHasPlace(|xs|, k);
      assert Complete(xs)[i] == xs[k] && Complete(ys)[i] == ys[k];
    }
  }

  // ----- Sizes that share a root -----

  lemma LastPairAbove(h: HashPair, leaves: seq<Bytes32>, up: seq<Bytes32>)
    requires |leaves| == 2 * |up| && up != [] && IsAbove(h, leaves, up)
    ensures IsAbove(h, leaves + leaves[|leaves| - 2..], up + [up[|up| - 1]])
  {
    var m := |up|;
    var longer, padded := leaves + leaves[2 * m - 2..], up + [up[m - 1]];
    assert |longer| == 2 * m + 2 && |padded| == m + 1;
    forall k | 0 <= k < m + 1
      ensures padded[k] == h(longer[2 * k], longer[2 * k + 1])
    {
      var j := if k < m then k else m - 1;
      assert padded[k] == up[j] == h(leaves[2 * j], leaves[2 * j + 1]);
      assert longer[2 * k] == leaves[2 * j] && longer[2 * k + 1] == leaves[2 * j + 1];
    }
  }

  lemma LastPairHashed(h: HashPair, leaves: seq<Bytes32>, longer: seq<Bytes32>, up: seq<Bytes32>)
    requires up == HashPairs(h, leaves) && |leaves| == 2 * |up| && up != []
    requires longer == leaves + leaves[|leaves| - 2..]
    ensures HashPairs(h, longer) == up + [up[|up| - 1]]
  {
    HashPairsIsAbove(h, leaves);
    LastPairAbove(h, leaves, up);
    AboveIsHashed(h, longer, up + [up[|up| - 1]]);
  }

  lemma PadOdd(level: seq<Bytes32>)
    requires |level| % 2 == 1
    ensures Pad(level) == level + [level[|level| - 1]]
  {
  }

  /** Trees that differ above their leaves by padding only have one root. */
  lemma PaddedAbove(h: HashPair, xs: seq<Bytes32>, ys: seq<Bytes32>, up: seq<Bytes32>)
    requires |xs| >= 2 && |ys| >= 2 && |up| >= 2
    requires HashPairs(h, xs) == up && HashPairs(h, ys) == Pad(up)
    ensures Root(h, ys) == Root(h, xs)
  {
    PaddingKeepsRoot(h, up);
  }

  lemma HalfIsOdd(n: nat)
    requires n >= 6 && n % 4 == 2
    ensures n == 2 * (n / 2) && (n / 2) % 2 == 1 && n / 2 >= 3 && (n + 1) / 2 == n / 2
  {
  }

  /**
   * Not only odd sizes: where the level above the leaves is odd, the last pair of leaves can
   * be there twice.
   */
  lemma LastPairTwice(h: HashPair, leaves: seq<Bytes32>)
    requires |leaves| >= 6 && |leaves| % 4 == 2
    ensures Root(h, leaves + leaves[|leaves| - 2..]) == Root(h, leaves)
  {
    var longer, up := leaves + leaves[|leaves| - 2..], HashPairs(h, leaves);
    HalfIsOdd(|leaves|);
    LastPairHashed(h, leaves, longer, up);
    PadOdd(up);
    PaddedAbove(h, leaves, longer, up);
  }
}
