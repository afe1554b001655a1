/**
 * The Merkle tree over proof ids: its root, its sibling paths and their verification. The
 * pair hash (SHA-256 of two hashes) is a parameter.
 *
 * The root pads every level that has an odd number of nodes, the path generator only the
 * leaves; reading a sibling that is not there panics.
 */
module Merkle {
  import opened Bytes

  type HashPair = (Bytes32, Bytes32) -> Bytes32
  datatype Step = Step(sibling: Bytes32, isLeft: bool)

  /** What `proof` does: no such leaf (`None`), an index out of range (a panic), or a path. */
  datatype Outcome = NoSuchLeaf | Panic | Path(steps: seq<Step>)

  // ----- Levels -----

  function Pad(level: seq<Bytes32>): (r: seq<Bytes32>)
    ensures |r| == |level| + |level| % 2
    ensures r[..|level|] == level
  {
    if |level| % 2 == 1 then level + [level[|level| - 1]] else level
  }

  function PairUp(h: HashPair, level: seq<Bytes32>): (r: seq<Bytes32>)
    requires |level| % 2 == 0
    ensures |r| == |level| / 2
    ensures forall k :: 0 <= k < |r| ==> r[k] == h(level[2 * k], level[2 * k + 1])
  {
    if level == [] then [] else [h(level[0], level[1])] + PairUp(h, level[2..])
  }

  function HashPairs(h: HashPair, level: seq<Bytes32>): (r: seq<Bytes32>)
    ensures |r| == (|level| + 1) / 2
  {
    PairUp(h, Pad(level))
  }

  function BuildLevel(h: HashPair, level: seq<Bytes32>): Bytes32
    requires level != []
    decreases |level|
  {
    if |level| == 1 then level[0] else BuildLevel(h, HashPairs(h, level))
  }

  function ZeroHash(): Bytes32 {
    seq(32, _ => 0)
  }

  function Root(h: HashPair, leaves: seq<Bytes32>): Bytes32 {
    if leaves == [] then ZeroHash() else BuildLevel(h, leaves)
  }

  // ----- Paths -----

  function SiblingIndex(index: nat): nat {
    if index % 2 == 0 then index + 1 else index - 1
  }

  /** The sibling loop from one level up to the root. */
  function Climb(h: HashPair, level: seq<Bytes32>, index: nat): (r: Outcome)
    ensures !r.NoSuchLeaf?
    decreases |level|
  {
    if |level| <= 1 then Path([])
    else if SiblingIndex(index) >= |level| then Panic
    else
      var step := Step(level[SiblingIndex(index)], index % 2 == 0);
      match Climb(h, HashPairs(h, level), index / 2)
      case Path(steps) => Path([step] + steps)
      case _ => Panic
  }

  function ProofPath(h: HashPair, leaves: seq<Bytes32>, index: nat): Outcome {
    if index >= |leaves| then NoSuchLeaf else Climb(h, Pad(leaves), index)
  }

  function StepHash(h: HashPair, current: Bytes32, step: Step): Bytes32 {
    if step.isLeft then h(current, step.sibling) else h(step.sibling, current)
  }

  function Fold(h: HashPair, current: Bytes32, path: seq<Step>): Bytes32
    decreases |path|
  {
    if path == [] then current else Fold(h, StepHash(h, current, path[0]), path[1..])
  }

  predicate Verifies(h: HashPair, leaf: Bytes32, path: seq<Step>, root: Bytes32) {
    Fold(h, leaf, path) == root
  }

  // ----- When a path exists -----

  /** On a level of `n` nodes and on every level above it the sibling on the way up is there. */
  predicate SiblingsExist(n: nat, index: nat)
    decreases n
  {
    n <= 1 || ((index % 2 == 1 || index + 1 < n) && SiblingsExist((n + 1) / 2, index / 2))
  }

  function EvenUp(n: nat): nat {
    n + n % 2
  }

  /** The number of levels above one with `n` nodes. */
  function Height(n: nat): nat
    decreases n
  {
    if n <= 1 then 0 else 1 + Height((n + 1) / 2)
  }

  function Pow2(k: nat): (p: nat)
    ensures p >= 1
  {
    if k == 0 then 1 else 2 * Pow2(k - 1)
  }

  /** `k` is ceil(log2 n), for `n` at least two. */
  predicate IsCeilLog2(k: nat, n: nat) {
    k >= 1 && Pow2(k - 1) < n <= Pow2(k)
  }

  lemma {:induction false} HeightIsCeilLog2(n: nat)
    requires n >= 2
    ensures IsCeilLog2(Height(n), n)
    decreases n
  {
    if n > 2 {
      HeightIsCeilLog2((n + 1) / 2);
    }
  }

  /** A node whose pair lies within the level is hashed with its sibling. */
  lemma PairHashed(h: HashPair, level: seq<Bytes32>, index: nat)
    requires index < |level| && SiblingIndex(index) < |level|
    ensures StepHash(h, level[index], Step(level[SiblingIndex(index)], index % 2 == 0))
            == HashPairs(h, level)[index / 2]
  {
    var padded, k := Pad(level), index / 2;
    assert HashPairs(h, level)[k] == h(padded[2 * k], padded[2 * k + 1]);
    assert level == padded[..|level|];
  }

  /** The loop succeeds exactly when all siblings are there. */
  lemma {:induction false} ClimbSucceeds(h: HashPair, level: seq<Bytes32>, index: nat)
    requires index < |level|
    ensures Climb(h, level, index).Path? <==> SiblingsExist(|level|, index)
    decreases |level|
  {
    if |level| > 1 && SiblingIndex(index) < |level| {
      ClimbSucceeds(h, HashPairs(h, level), index / 2);
    }
  }

  /** A path that the loop returns leads to the root. */
  lemma {:induction false} ClimbReachesRoot(h: HashPair, level: seq<Bytes32>, index: nat)
    requires index < |level| && Climb(h, level, index).Path?
    ensures var steps := Climb(h, level, index).steps;
      |steps| == Height(|level|) && Fold(h, level[index], steps) == BuildLevel(h, level)
    decreases |level|
  {
    if |level| > 1 {
      PairHashed(h, level, index);
      ClimbReachesRoot(h, HashPairs(h, level), index / 2);
      assert Climb(h, level, index).steps[1..] == Climb(h, HashPairs(h, level), index / 2).steps;
    }
  }

  lemma PaddingKeepsRoot(h: HashPair, leaves: seq<Bytes32>)
    requires |leaves| >= 2
    ensures BuildLevel(h, Pad(leaves)) == BuildLevel(h, leaves)
    ensures Height(|Pad(leaves)|) == Height(|leaves|)
  {
    var padded := Pad(leaves);
    assert Pad(padded) == padded;
    assert HashPairs(h, padded) == HashPairs(h, leaves);
    assert BuildLevel(h, padded) == BuildLevel(h, HashPairs(h, padded));
    assert (|padded| + 1) / 2 == (|leaves| + 1) / 2;
  }

  lemma OneLeafPath(h: HashPair, leaves: seq<Bytes32>)
    requires |leaves| == 1
    ensures ProofPath(h, leaves, 0) == Path([Step(leaves[0], true)])
    ensures Fold(h, leaves[0], [Step(leaves[0], true)]) == h(leaves[0], leaves[0])
  {
    var level, step := [leaves[0], leaves[0]], Step(leaves[0], true);
    assert Pad(leaves) == level;
    assert Climb(h, HashPairs(h, level), 0) == Path([]);
    assert Climb(h, level, 0) == Path([step] + []);
    assert [step][1..] == [];
  }

  lemma PathExistsIff(h: HashPair, leaves: seq<Bytes32>, index: nat)
    requires index < |leaves|
    ensures ProofPath(h, leaves, index).Path? <==> SiblingsExist(EvenUp(|leaves|), index)
    ensures ProofPath(h, leaves, index).Panic? <==> !SiblingsExist(EvenUp(|leaves|), index)
  {
    ClimbSucceeds(h, Pad(leaves), index);
    assert |Pad(leaves)| == EvenUp(|leaves|);
  }

  lemma PathOfMany(h: HashPair, leaves: seq<Bytes32>, index: nat, steps: seq<Step>)
    requires |leaves| >= 2 && index < |leaves|
    requires |steps| == Height(|Pad(leaves)|)
    requires Fold(h, Pad(leaves)[index], steps) == BuildLevel(h, Pad(leaves))
    ensures Verifies(h, leaves[index], steps, Root(h, leaves))
    ensures IsCeilLog2(|steps|, |leaves|)
  {
    PaddingKeepsRoot(h, leaves);
    HeightIsCeilLog2(|leaves|);
    assert Pad(leaves)[..|leaves|] == leaves;
    assert Pad(leaves)[index] == leaves[index];
  }

  /**
   * Completeness, exactly: `proof(index)` returns a path if and only if the siblings on the
   * way up exist, and panics otherwise. With two leaves or more that path verifies against
   * the root and has ceil(log2 n) steps.
   */
  lemma ProofComplete(h: HashPair, leaves: seq<Bytes32>, index: nat)
    requires index < |leaves|
    ensures ProofPath(h, leaves, index).Path? <==> SiblingsExist(EvenUp(|leaves|), index)
    ensures ProofPath(h, leaves, index).Panic? <==> !SiblingsExist(EvenUp(|leaves|), index)
    ensures |leaves| >= 2 && ProofPath(h, leaves, index).Path? ==>
      var steps := ProofPath(h, leaves, index).steps;
      && Verifies(h, leaves[index], steps, Root(h, leaves))
      && IsCeilLog2(|steps|, |leaves|)
  {
    PathExistsIff(h, leaves, index);
    if |leaves| >= 2 && ProofPath(h, leaves, index).Path? {
      var c := Climb(h, Pad(leaves), index);
      assert ProofPath(h, leaves, index) == c;
      ClimbReachesRoot(h, Pad(leaves), index);
      PathOfMany(h, leaves, index, c.steps);
    }
  }

  /** An index beyond the leaves, and no other, is answered without path or panic. */
  lemma NoSuchLeafIff(h: HashPair, leaves: seq<Bytes32>, index: nat)
    ensures ProofPath(h, leaves, index).NoSuchLeaf? <==> index >= |leaves|
  {
    if index < |leaves| {
      PathExistsIff(h, leaves, index);
    }
  }

  /** The tree without leaves has 32 zero bytes as root, and no path to serve. */
  lemma EmptyTree(h: HashPair, index: nat)
    ensures forall i :: 0 <= i < 32 ==> Root(h, [])[i] == 0
    ensures ProofPath(h, [], index).NoSuchLeaf?
  {
  }

  /** `proof(index)` gives a path that verifies against `root()`. */
  predicate Provable(h: HashPair, leaves: seq<Bytes32>, index: nat) {
    && index < |leaves|
    && ProofPath(h, leaves, index).Path?
    && Verifies(h, leaves[index], ProofPath(h, leaves, index).steps, Root(h, leaves))
  }

  /**
   * A leaf is provable if and only if its siblings on the way up exist and, where it is the
   * only leaf, it is the hash of itself with itself: the root of one leaf is the bare leaf,
   * but its path has one step.
   */
  lemma ProvableIff(h: HashPair, leaves: seq<Bytes32>, index: nat)
    requires index < |leaves|
    ensures Provable(h, leaves, index) <==>
      && SiblingsExist(EvenUp(|leaves|), index)
      && (|leaves| == 1 ==> h(leaves[0], leaves[0]) == leaves[0])
  {
    ProofComplete(h, leaves, index);
    if |leaves| == 1 {
      OneLeafPath(h, leaves);
    }
  }

  /** The fifth of five leaves has no path: the generator reads past the third level. */
  lemma FifthOfFivePanics(h: HashPair, leaves: seq<Bytes32>)
    requires |leaves| == 5
    ensures ProofPath(h, leaves, 4).Panic?
  {
    assert !SiblingsExist(3, 2);
    assert !SiblingsExist(6, 4);
    ProofComplete(h, leaves, 4);
  }

  predicate AllSiblingsExist(n: nat) {
    forall i: nat :: i < n ==> SiblingsExist(n, i)
  }

  ghost predicate IsPow2(n: nat) {
    exists k: nat :: Pow2(k) == n
  }

  lemma HalfOfPow2(n: nat)
    requires n >= 2
    ensures IsPow2(n) <==> n % 2 == 0 && IsPow2(n / 2)
  {
    if IsPow2(n) {
      var k: nat :| Pow2(k) == n;
      assert k > 0 && Pow2(k) == 2 * Pow2(k - 1);
      assert Pow2(k - 1) == n / 2;
    }
    if n % 2 == 0 && IsPow2(n / 2) {
      var k: nat :| Pow2(k) == n / 2;
      assert Pow2(k + 1) == n;
    }
  }

  lemma HalfOfSiblings(n: nat)
    requires n >= 2
    ensures AllSiblingsExist(n) <==> n % 2 == 0 && AllSiblingsExist(n / 2)
  {
    if n % 2 == 1 {
      assert !SiblingsExist(n, n - 1);
    } else {
      assert (n + 1) / 2 == n / 2;
      forall i: nat | i < n
        ensures SiblingsExist(n, i) <==> SiblingsExist(n / 2, i / 2)
      {
      }
      if AllSiblingsExist(n) {
        forall j: nat | j < n / 2
          ensures SiblingsExist(n / 2, j)
        {
          assert SiblingsExist(n, 2 * j);
        }
      }
    }
  }

  /** All `n` nodes of a level have their siblings on the way up exactly when `n` is a power of two. */
  lemma {:induction false} AllSiblingsIffPow2(n: nat)
    requires n >= 1
    ensures AllSiblingsExist(n) <==> IsPow2(n)
    decreases n
  {
    if n == 1 {
      assert Pow2(0) == 1;
    } else {
      HalfOfPow2(n);
      HalfOfSiblings(n);
      AllSiblingsIffPow2(n / 2);
    }
  }

  /**
   * A tree serves a path for each of its leaves exactly when its size, rounded up to an even
   * number, is a power of two.
   */
  lemma EveryLeafHasPathIff(h: HashPair, leaves: seq<Bytes32>)
    requires leaves != []
    ensures (forall i: nat :: i < |leaves| ==> ProofPath(h, leaves, i).Path?) <==> IsPow2(EvenUp(|leaves|))
  {
    var n := EvenUp(|leaves|);
    AllSiblingsIffPow2(n);
    // The padding leaf has index n - 1, and the same way up as the leaf that it copies.
    assert SiblingsExist(n, n - 2) <==> SiblingsExist(n, n - 1);
    forall i: nat | i < |leaves|
      ensures ProofPath(h, leaves, i).Path? <==> SiblingsExist(n, i)
    {
      ProofComplete(h, leaves, i);
    }
    if forall i: nat :: i < |leaves| ==> ProofPath(h, leaves, i).Path? {
      forall i: nat | i < n
        ensures SiblingsExist(n, i)
      {
        assert i < |leaves| ==> ProofPath(h, leaves, i).Path?;
        assert n - 2 < |leaves| && ProofPath(h, leaves, n - 2).Path?;
      }
    }
  }

  /**
   * Every leaf of a tree is provable exactly when its size, rounded up to an even number, is a
   * power of two (and, where there is one leaf only, that is the hash of itself with itself).
   */
  lemma EveryLeafProvableIff(h: HashPair, leaves: seq<Bytes32>)
    requires leaves != []
    ensures (forall i: nat :: i < |leaves| ==> Provable(h, leaves, i)) <==>
      IsPow2(EvenUp(|leaves|)) && (|leaves| == 1 ==> h(leaves[0], leaves[0]) == leaves[0])
  {
    EveryLeafHasPathIff(h, leaves);
    forall i: nat | i < |leaves|
      ensures Provable(h, leaves, i) <==>
        ProofPath(h, leaves, i).Path? && (|leaves| == 1 ==> h(leaves[0], leaves[0]) == leaves[0])
    {
      ProvableIff(h, leaves, i);
      PathExistsIff(h, leaves, i);
    }
    if forall i: nat :: i < |leaves| ==> Provable(h, leaves, i) {
      assert Provable(h, leaves, 0);
    }
  }

  // ----- Binding -----

  datatype Collision = Collision(a: Bytes32, b: Bytes32, c: Bytes32, d: Bytes32)

  predicate IsCollision(h: HashPair, x: Collision) {
    (x.a, x.b) != (x.c, x.d) && h(x.a, x.b) == h(x.c, x.d)
  }

  predicate SameDirections(p: seq<Step>, q: seq<Step>) {
    |p| == |q| && forall i :: 0 <= i < |p| ==> p[i].isLeft == q[i].isLeft
  }

  /** The first level at which two paths meet. */
  function PathCollision(h: HashPair, x: Bytes32, p: seq<Step>, y: Bytes32, q: seq<Step>): Collision
    requires |p| == |q| > 0
    decreases |p|
  {
    if StepHash(h, x, p[0]) == StepHash(h, y, q[0]) || |p| == 1 then
      if p[0].isLeft then Collision(x, p[0].sibling, y, q[0].sibling)
      else Collision(p[0].sibling, x, q[0].sibling, y)
    else
      PathCollision(h, StepHash(h, x, p[0]), p[1..], StepHash(h, y, q[0]), q[1..])
  }

  /** Two leaves accepted at one place under one root are the same, or give a collision. */
  lemma {:induction false} PathsBind(
      h: HashPair, x: Bytes32, p: seq<Step>, y: Bytes32, q: seq<Step>, root: Bytes32)
    requires SameDirections(p, q)
    requires Verifies(h, x, p, root) && Verifies(h, y, q, root)
    ensures x == y || (p != [] && IsCollision(h, PathCollision(h, x, p, y, q)))
    decreases |p|
  {
    if x != y && p != [] && StepHash(h, x, p[0]) != StepHash(h, y, q[0]) {
      PathsBind(h, StepHash(h, x, p[0]), p[1..], StepHash(h, y, q[0]), q[1..], root);
    }
  }

  /** The first pair in which two levels differ. */
  function PairCollision(xs: seq<Bytes32>, ys: seq<Bytes32>): Collision
    requires |xs| == |ys| && |xs| % 2 == 0 && xs != ys
  {
    if xs[..2] != ys[..2] then Collision(xs[0], xs[1], ys[0], ys[1])
    else
      assert xs == xs[..2] + xs[2..] && ys == ys[..2] + ys[2..];
      PairCollision(xs[2..], ys[2..])
  }

  lemma {:induction false} PairsBind(h: HashPair, xs: seq<Bytes32>, ys: seq<Bytes32>)
    requires |xs| == |ys| && |xs| % 2 == 0 && xs != ys
    requires PairUp(h, xs) == PairUp(h, ys)
    ensures IsCollision(h, PairCollision(xs, ys))
  {
    if xs[..2] == ys[..2] {
      assert xs == xs[..2] + xs[2..] && ys == ys[..2] + ys[2..];
      assert PairUp(h, xs)[1..] == PairUp(h, xs[2..]) && PairUp(h, ys)[1..] == PairUp(h, ys[2..]);
      PairsBind(h, xs[2..], ys[2..]);
    } else {
      assert xs[..2] == [xs[0], xs[1]] && ys[..2] == [ys[0], ys[1]];
      assert PairUp(h, xs)[0] == h(xs[0], xs[1]) && PairUp(h, ys)[0] == h(ys[0], ys[1]);
    }
  }

  lemma PadInjective(xs: seq<Bytes32>, ys: seq<Bytes32>)
    requires |xs| == |ys| && xs != ys
    ensures Pad(xs) != Pad(ys)
  {
    assert Pad(xs)[..|xs|] == xs && Pad(ys)[..|ys|] == ys;
  }

  /** The level at which two trees of the same shape come together. */
  function RootCollision(h: HashPair, xs: seq<Bytes32>, ys: seq<Bytes32>): Collision
    requires |xs| == |ys| > 1 && xs != ys
    decreases |xs|
  {
    PadInjective(xs, ys);
    if HashPairs(h, xs) == HashPairs(h, ys) || |xs| == 2 then PairCollision(Pad(xs), Pad(ys))
    else RootCollision(h, HashPairs(h, xs), HashPairs(h, ys))
  }

  lemma LevelBinds(h: HashPair, xs: seq<Bytes32>, ys: seq<Bytes32>)
    requires |xs| == |ys| > 1 && xs != ys
    ensures Pad(xs) != Pad(ys)
    ensures HashPairs(h, xs) == HashPairs(h, ys) ==> IsCollision(h, PairCollision(Pad(xs), Pad(ys)))
  {
    PadInjective(xs, ys);
    if HashPairs(h, xs) == HashPairs(h, ys) {
      PairsBind(h, Pad(xs), Pad(ys));
    }
  }

  lemma {:induction false} LevelsBind(h: HashPair, xs: seq<Bytes32>, ys: seq<Bytes32>)
    requires |xs| == |ys| >= 1
    requires BuildLevel(h, xs) == BuildLevel(h, ys)
    ensures xs == ys || (|xs| > 1 && IsCollision(h, RootCollision(h, xs, ys)))
    decreases |xs|
  {
    if |xs| == 1 {
      assert xs == [xs[0]] && ys == [ys[0]];
    } else if xs != ys {
      LevelBinds(h, xs, ys);
      if HashPairs(h, xs) != HashPairs(h, ys) {
        LevelsBind(h, HashPairs(h, xs), HashPairs(h, ys));
      }
    }
  }

  /** Trees of one size with one root have the same leaves, or give a collision. */
  lemma RootBinds(h: HashPair, xs: seq<Bytes32>, ys: seq<Bytes32>)
    requires |xs| == |ys|
    requires Root(h, xs) == Root(h, ys)
    ensures xs == ys || (|xs| > 1 && IsCollision(h, RootCollision(h, xs, ys)))
  {
    if xs != [] {
      LevelsBind(h, xs, ys);
    }
  }

  /** The size matters: a copy of the last leaf behind an odd number of them leaves the root as it was. */
  lemma LastLeafTwice(h: HashPair, leaves: seq<Bytes32>)
    requires |leaves| >= 3 && |leaves| % 2 == 1
    ensures Root(h, leaves + [leaves[|leaves| - 1]]) == Root(h, leaves)
  {
    PaddingKeepsRoot(h, leaves);
  }

  // ----- The tree -----

  function Prepend(path: seq<Step>, o: Outcome): Outcome {
    match o
    case Path(steps) => Path(path + steps)
    case _ => o
  }

  /** One round of the sibling loop. */
  lemma ClimbRound(h: HashPair, level: seq<Bytes32>, i: nat, path: seq<Step>)
    ensures |level| <= 1 ==> Prepend(path, Climb(h, level, i)) == Path(path)
    ensures |level| > 1 && SiblingIndex(i) >= |level| ==> Prepend(path, Climb(h, level, i)) == Panic
    ensures |level| > 1 && SiblingIndex(i) < |level| ==>
      var longer := path + [Step(level[SiblingIndex(i)], i % 2 == 0)];
      Prepend(longer, Climb(h, HashPairs(h, level), i / 2)) == Prepend(path, Climb(h, level, i))
  {
    if |level| > 1 && SiblingIndex(i) < |level| {
      var step, above := Step(level[SiblingIndex(i)], i % 2 == 0), Climb(h, HashPairs(h, level), i / 2);
      if above.Path? {
        assert path + ([step] + above.steps) == (path + [step]) + above.steps;
      }
    }
  }

  lemma PrependNothing(o: Outcome)
    ensures Prepend([], o) == o
  {
  }

  class MerkleTree {
    const hashPair: HashPair
    var leaves: seq<Bytes32>

    constructor (h: HashPair)
      ensures hashPair == h && leaves == []
    {
      hashPair := h;
      leaves := [];
    }

    method Insert(leaf: Bytes32)
      modifies this
      ensures leaves == old(leaves) + [leaf]
    {
      leaves := leaves + [leaf];
    }

    method GetRoot() returns (root: Bytes32)
      ensures root == Root(hashPair, leaves)
    {
      if leaves == [] {
        return ZeroHash();
      }
      var current := leaves;
      while |current| > 1
        invariant current != [] && BuildLevel(hashPair, current) == BuildLevel(hashPair, leaves)
        decreases |current|
      {
        current := HashPairs(hashPair, current);
      }
      return current[0];
    }

    method GetProof(index: nat) returns (r: Outcome)
      ensures r == ProofPath(hashPair, leaves, index)
    {
      if index >= |leaves| {
        return NoSuchLeaf;
      }
      hide Climb, HashPairs, Prepend;
      var path := [];
      var level, i := Pad(leaves), index;
      PrependNothing(Climb(hashPair, level, i));
      while |level| > 1
        invariant Prepend(path, Climb(hashPair, level, i)) == Climb(hashPair, Pad(leaves), index)
        decreases |level|
      {
        ClimbRound(hashPair, level, i, path);
        var sibling := if i % 2 == 0 then i + 1 else i - 1;
        if sibling >= |level| {
          return Panic;
        }
        path := path + [Step(level[sibling], i % 2 == 0)];
        level := HashPairs(hashPair, level);
        i := i / 2;
      }
      ClimbRound(hashPair, level, i, path);
      return Path(path);
    }
  }

  method VerifyProof(h: HashPair, leaf: Bytes32, path: seq<Step>, root: Bytes32) returns (ok: bool)
    ensures ok == Verifies(h, leaf, path, root)
  {
    var current := leaf;
    for i := 0 to |path|
      invariant Fold(h, current, path[i..]) == Fold(h, leaf, path)
    {
      assert path[i..][1..] == path[i + 1..];
      current := StepHash(h, current, path[i]);
    }
    return current == root;
  }
}
