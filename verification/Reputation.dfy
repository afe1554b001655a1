/**
 * The local reputation store: per node the proofs it was paid for, the Merkle tree over
 * their ids and the index from id to leaf. A proof's id (the SHA-256 of its canonical bytes)
 * and the verdict on its signature are fields here.
 */
module Reputation {
  import opened Bytes
  import opened Options
  import opened Merkle

  datatype Proof = Proof(node: string, id: Bytes32, verified: bool, latency: nat)

  datatype Score = Score(value: real, totalJobs: nat, verifiedProofs: nat, avgLatency: real, root: Bytes32)

  datatype NodeState = NodeState(
    proofs: seq<Proof>,
    leaves: seq<Bytes32>,
    index: map<Bytes32, nat>,
    score: Score)

  // ----- Scores -----

  function DefaultScore(): Score {
    Score(0.0, 0, 0, 0.0, ZeroHash())
  }

  function VerifiedCount(proofs: seq<Proof>): (n: nat)
    ensures n <= |proofs|
  {
    if proofs == [] then 0 else (if proofs[0].verified then 1 else 0) + VerifiedCount(proofs[1..])
  }

  function TotalLatency(proofs: seq<Proof>): nat {
    if proofs == [] then 0 else proofs[0].latency + TotalLatency(proofs[1..])
  }

  function LatencyScore(avg: real): (r: real)
    ensures avg >= 0.0 ==> 0.0 <= r <= 1.0
    ensures r == 0.0 <==> avg >= 5000.0
  {
    var capped := if avg / 5000.0 < 1.0 then avg / 5000.0 else 1.0;
    if 1.0 - capped > 0.0 then 1.0 - capped else 0.0
  }

  /** `compute_score`, over the reals instead of `f64`. */
  function ComputeScore(proofs: seq<Proof>, root: Bytes32): Score {
    if proofs == [] then DefaultScore()
    else
      var total, verified := |proofs| as real, VerifiedCount(proofs);
      var avg := TotalLatency(proofs) as real / total;
      var value := 0.6 * (verified as real / total) + 0.4 * LatencyScore(avg);
      Score(value, |proofs|, verified, avg, root)
  }

  lemma RatioBounds(a: real, b: real)
    requires 0.0 <= a <= b && b > 0.0
    ensures 0.0 <= a / b <= 1.0
    ensures a / b == 1.0 <==> a == b
  {
    assert a == (a / b) * b;
  }

  lemma RatioPositive(a: real, b: real)
    requires 0.0 <= a && b > 0.0
    ensures a / b >= 0.0
    ensures a / b == 0.0 <==> a == 0.0
  {
    assert a == (a / b) * b;
  }

  /** The composite is a fraction, and it is one only for verified proofs without any latency. */
  lemma ScoreIsFraction(proofs: seq<Proof>, root: Bytes32)
    ensures 0.0 <= ComputeScore(proofs, root).value <= 1.0
    ensures proofs != [] ==>
      (ComputeScore(proofs, root).value == 1.0 <==> VerifiedCount(proofs) == |proofs| && TotalLatency(proofs) == 0)
  {
    if proofs != [] {
      var total, verified, latency := |proofs| as real, VerifiedCount(proofs) as real, TotalLatency(proofs) as real;
      RatioBounds(verified, total);
      RatioPositive(latency, total);
      assert LatencyScore(latency / total) == 1.0 <==> latency / total == 0.0;
    }
  }

  lemma {:induction false} CountsAppend(proofs: seq<Proof>, p: Proof)
    ensures VerifiedCount(proofs + [p]) == VerifiedCount(proofs) + if p.verified then 1 else 0
    ensures TotalLatency(proofs + [p]) == TotalLatency(proofs) + p.latency
    decreases |proofs|
  {
    var more := proofs + [p];
    if proofs == [] {
      assert more == [p] && more[1..] == [];
      assert VerifiedCount([]) == 0 && TotalLatency([]) == 0;
    } else {
      assert more[1..] == proofs[1..] + [p];
      CountsAppend(proofs[1..], p);
    }
  }

  lemma Times(a: real, n: real)
    requires n > 0.0
    ensures a / n * n == a
  {
  }

  /** What is left of the whole when the share of five seconds goes. */
  lemma LatencyScoreTimes(latency: real, n: real)
    requires latency >= 0.0 && n > 0.0
    ensures LatencyScore(latency / n) * n == if latency < 5000.0 * n then n - latency / 5000.0 else 0.0
  {
    var avg := latency / n;
    Times(latency, n);
    assert avg < 5000.0 <==> latency < 5000.0 * n;
    if avg < 5000.0 {
      assert LatencyScore(avg) == 1.0 - avg / 5000.0;
      assert (1.0 - avg / 5000.0) * n == n - (avg * n) / 5000.0;
    }
  }

  /** Four tenths for each of `n` proofs, less what their latency takes, five seconds a proof. */
  function LatencyShare(n: real, latency: real): real {
    if latency < 5000.0 * n then 0.4 * (n - latency / 5000.0) else 0.0
  }

  lemma WeightsTimes(a: real, b: real, n: real, an: real, bn: real)
    requires a * n == an && b * n == bn
    ensures (0.6 * a + 0.4 * b) * n == 0.6 * an + 0.4 * bn
  {
  }

  /** The parts that the value is made of. */
  lemma {:induction false} ScoreParts(proofs: seq<Proof>, root: Bytes32) returns (rate: real, saved: real)
    requires proofs != []
    ensures var (n, latency) := (|proofs| as real, TotalLatency(proofs) as real);
      && rate * n == VerifiedCount(proofs) as real
      && saved * n == (if latency < 5000.0 * n then n - latency / 5000.0 else 0.0)
      && ComputeScore(proofs, root).value == 0.6 * rate + 0.4 * saved
  {
    var n := |proofs| as real;
    rate := VerifiedCount(proofs) as real / n;
    saved := LatencyScore(TotalLatency(proofs) as real / n);
    Times(VerifiedCount(proofs) as real, n);
    LatencyScoreTimes(TotalLatency(proofs) as real, n);
  }

  /**
   * The value, without any division by the number of proofs: six tenths for each verified
   * proof, and the share of the latency.
   */
  lemma {:induction false} ScoreTimesProofs(proofs: seq<Proof>, root: Bytes32)
    requires proofs != []
    ensures ComputeScore(proofs, root).value * |proofs| as real
      == 0.6 * VerifiedCount(proofs) as real + LatencyShare(|proofs| as real, TotalLatency(proofs) as real)
  {
    hide ComputeScore;
    var rate, saved := ScoreParts(proofs, root);
    WeightsTimes(rate, saved, |proofs| as real, rate * |proofs| as real, saved * |proofs| as real);
  }

  lemma EqualTimes(a: real, b: real, n: real)
    requires n > 0.0 && a * n == b * n
    ensures a == b
  {
    assert (a - b) * n == 0.0;
  }

  /** All verified but slow is worth six tenths, none verified but without latency four. */
  lemma {:induction false} ScoreCorners(proofs: seq<Proof>, root: Bytes32)
    requires proofs != []
    ensures VerifiedCount(proofs) == |proofs| && TotalLatency(proofs) >= 5000 * |proofs|
      ==> ComputeScore(proofs, root).value == 0.6
    ensures VerifiedCount(proofs) == 0 && TotalLatency(proofs) == 0 ==> ComputeScore(proofs, root).value == 0.4
  {
    ScoreTimesProofs(proofs, root);
    var n := |proofs| as real;
    assert (5000 * |proofs|) as real == 5000.0 * n;
    if VerifiedCount(proofs) == |proofs| && TotalLatency(proofs) >= 5000 * |proofs| {
      EqualTimes(ComputeScore(proofs, root).value, 0.6, n);
    }
    if VerifiedCount(proofs) == 0 && TotalLatency(proofs) == 0 {
      EqualTimes(ComputeScore(proofs, root).value, 0.4, n);
    }
  }

  lemma SixTenthsMore(x: real, y: real, verified: nat, share: real)
    requires x == 0.6 * (verified + 1) as real + share
    requires y == 0.6 * verified as real + share
    ensures x == y + 0.6
  {
  }

  lemma {:induction false} OneMoreVerified(a: seq<Proof>, b: seq<Proof>, root: Bytes32)
    requires |a| == |b| > 0 && TotalLatency(a) == TotalLatency(b) && VerifiedCount(a) == VerifiedCount(b) + 1
    ensures ComputeScore(a, root).value * |a| as real == ComputeScore(b, root).value * |a| as real + 0.6
  {
    hide ComputeScore, LatencyShare, VerifiedCount, TotalLatency;
    ScoreTimesProofs(a, root);
    ScoreTimesProofs(b, root);
    SixTenthsMore(ComputeScore(a, root).value * |a| as real, ComputeScore(b, root).value * |b| as real,
                  VerifiedCount(b), LatencyShare(|b| as real, TotalLatency(b) as real));
  }

  /** What the verification of one proof among `n` adds: six tenths of the n-th part. */
  lemma {:induction false} VerificationAdds(proofs: seq<Proof>, p: Proof, root: Bytes32)
    ensures var n := (|proofs| + 1) as real;
      && ComputeScore(proofs + [p.(verified := true)], root).value * n
         == ComputeScore(proofs + [p.(verified := false)], root).value * n + 0.6
  {
    hide ComputeScore;
    CountsAppend(proofs, p.(verified := true));
    CountsAppend(proofs, p.(verified := false));
    OneMoreVerified(proofs + [p.(verified := true)], proofs + [p.(verified := false)], root);
  }

  /** The other figures of a score. */
  lemma {:induction false} ScoreFigures(proofs: seq<Proof>, root: Bytes32)
    ensures var s := ComputeScore(proofs, root);
      && s.totalJobs == |proofs|
      && s.verifiedProofs == VerifiedCount(proofs)
      && s.avgLatency * |proofs| as real == TotalLatency(proofs) as real
      && (proofs != [] ==> s.root == root)
  {
    if proofs != [] {
      Times(TotalLatency(proofs) as real, |proofs| as real);
    }
  }

  // ----- One node -----

  function Ids(proofs: seq<Proof>): (r: seq<Bytes32>)
    ensures |r| == |proofs|
    ensures forall i :: 0 <= i < |r| ==> r[i] == proofs[i].id
  {
    if proofs == [] then [] else Ids(proofs[..|proofs| - 1]) + [proofs[|proofs| - 1].id]
  }

  /** The index that `from_proofs` builds; a later proof overrides an earlier one of the same id. */
  function IndexFor(proofs: seq<Proof>): map<Bytes32, nat> {
    if proofs == [] then map[]
    else IndexFor(proofs[..|proofs| - 1])[proofs[|proofs| - 1].id := |proofs| - 1]
  }

  function FromProofs(proofs: seq<Proof>, score: Score): NodeState {
    NodeState(proofs, Ids(proofs), IndexFor(proofs), score)
  }

  /** `record_proof` for one node: an id that is indexed already is ignored. */
  function Record(h: HashPair, s: NodeState, p: Proof): NodeState {
    if p.id in s.index then s
    else
      var proofs, leaves := s.proofs + [p], s.leaves + [p.id];
      NodeState(proofs, leaves, s.index[p.id := |s.leaves|], ComputeScore(proofs, Root(h, leaves)))
  }

  function RecordAll(h: HashPair, ps: seq<Proof>): NodeState {
    if ps == [] then FromProofs([], DefaultScore())
    else Record(h, RecordAll(h, ps[..|ps| - 1]), ps[|ps| - 1])
  }

  /** Index, leaves and proof list agree, without any id twice. */
  predicate Agree(s: NodeState) {
    && |s.leaves| == |s.proofs|
    && (forall i :: 0 <= i < |s.proofs| ==>
      s.leaves[i] == s.proofs[i].id && s.leaves[i] in s.index && s.index[s.leaves[i]] == i)
    && (forall id :: id in s.index ==> s.index[id] < |s.leaves| && s.leaves[s.index[id]] == id)
  }

  ghost predicate Contains(ps: seq<Proof>, id: Bytes32) {
    exists p :: p in ps && p.id == id
  }

  lemma {:induction false} RecordAllAgrees(h: HashPair, ps: seq<Proof>)
    ensures Agree(RecordAll(h, ps))
  {
    if ps != [] {
      RecordAllAgrees(h, ps[..|ps| - 1]);
    }
  }

  /** The state is the one a restart rebuilds from the stored proofs and score. */
  lemma {:induction false} RebuildIsIdentity(h: HashPair, ps: seq<Proof>)
    ensures RecordAll(h, ps) == FromProofs(RecordAll(h, ps).proofs, RecordAll(h, ps).score)
    ensures RecordAll(h, ps).score ==
      ComputeScore(RecordAll(h, ps).proofs, Root(h, RecordAll(h, ps).leaves))
  {
    if ps != [] {
      var s, p := RecordAll(h, ps[..|ps| - 1]), ps[|ps| - 1];
      RebuildIsIdentity(h, ps[..|ps| - 1]);
      if p.id !in s.index {
        var proofs := s.proofs + [p];
        assert proofs[..|proofs| - 1] == s.proofs;
      }
    }
  }

  /** The published figures are those of the proofs and of the tree over their ids. */
  predicate ShowsProofs(h: HashPair, s: NodeState) {
    && s.score.root == Root(h, s.leaves)
    && s.score.totalJobs == |s.proofs|
    && s.score.verifiedProofs == VerifiedCount(s.proofs)
    && s.score.avgLatency * |s.proofs| as real == TotalLatency(s.proofs) as real
  }

  lemma {:induction false} ComputedShowsProofs(h: HashPair, s: NodeState)
    requires |s.leaves| == |s.proofs| && s.score == ComputeScore(s.proofs, Root(h, s.leaves))
    ensures ShowsProofs(h, s)
  {
    ScoreFigures(s.proofs, Root(h, s.leaves));
  }

  lemma {:induction false} ScoreShowsProofs(h: HashPair, ps: seq<Proof>)
    ensures ShowsProofs(h, RecordAll(h, ps))
  {
    RebuildIsIdentity(h, ps);
    RecordAllAgrees(h, ps);
    ComputedShowsProofs(h, RecordAll(h, ps));
  }

  /** What is kept is every id that was recorded, under its first proof. */
  lemma {:induction false} IndexedIffRecorded(h: HashPair, ps: seq<Proof>, id: Bytes32)
    ensures id in RecordAll(h, ps).index <==> Contains(ps, id)
  {
    if ps != [] {
      var front, p := ps[..|ps| - 1], ps[|ps| - 1];
      IndexedIffRecorded(h, front, id);
      assert ps == front + [p];
      assert forall q :: q in ps <==> q in front || q == p;
    }
  }

  /** Recording again what was recorded changes nothing. */
  lemma RecordIsIdempotent(h: HashPair, ps: seq<Proof>, p: Proof)
    requires Contains(ps, p.id)
    ensures RecordAll(h, ps + [p]) == RecordAll(h, ps)
  {
    IndexedIffRecorded(h, ps, p.id);
    assert (ps + [p])[..|ps|] == ps;
  }

  // ----- The store -----

  type Nodes = map<string, NodeState>

  function NodeOf(nodes: Nodes, node: string): NodeState {
    if node in nodes then nodes[node] else FromProofs([], DefaultScore())
  }

  function RecordIn(h: HashPair, nodes: Nodes, p: Proof): Nodes {
    nodes[p.node := Record(h, NodeOf(nodes, p.node), p)]
  }

  function Run(h: HashPair, ps: seq<Proof>): Nodes {
    if ps == [] then map[] else RecordIn(h, Run(h, ps[..|ps| - 1]), ps[|ps| - 1])
  }

  function ProofsOf(ps: seq<Proof>, node: string): seq<Proof> {
    if ps == [] then []
    else if ps[|ps| - 1].node == node then ProofsOf(ps[..|ps| - 1], node) + [ps[|ps| - 1]]
    else ProofsOf(ps[..|ps| - 1], node)
  }

  /** Nodes do not interfere: each state is what the node's own proofs make of it. */
  lemma {:induction false} NodesAreIndependent(h: HashPair, ps: seq<Proof>, node: string)
    ensures NodeOf(Run(h, ps), node) == RecordAll(h, ProofsOf(ps, node))
    ensures node in Run(h, ps) <==> ProofsOf(ps, node) != []
  {
    if ps != [] {
      var front, p := ps[..|ps| - 1], ps[|ps| - 1];
      NodesAreIndependent(h, front, node);
      if p.node == node {
        var mine := ProofsOf(ps, node);
        assert mine[..|mine| - 1] == ProofsOf(front, node);
      }
    }
  }

  /** `merkle_root` of the local node. */
  function MerkleRoot(h: HashPair, nodes: Nodes, node: string): Bytes32 {
    if node in nodes then Root(h, nodes[node].leaves) else ZeroHash()
  }

  /** `merkle_proof` of the local node: `None` for an unknown id, else what the tree does. */
  function MerkleProof(h: HashPair, nodes: Nodes, node: string, id: Bytes32): Option<Outcome> {
    if node !in nodes || id !in nodes[node].index then None
    else Some(ProofPath(h, nodes[node].leaves, nodes[node].index[id]))
  }

  /**
   * After any run, a path is looked up exactly for the ids recorded for the local node, and
   * the answer verifies against the published root exactly when the siblings on the way up
   * from the id's leaf exist (and a lone leaf is the hash of itself with itself).
   */
  lemma ServedProofsVerify(h: HashPair, ps: seq<Proof>, local: string, id: Bytes32)
    ensures MerkleProof(h, Run(h, ps), local, id).Some? <==> Contains(ProofsOf(ps, local), id)
    ensures MerkleRoot(h, Run(h, ps), local) == Root(h, RecordAll(h, ProofsOf(ps, local)).leaves)
    ensures MerkleProof(h, Run(h, ps), local, id).Some? ==>
      var s := NodeOf(Run(h, ps), local);
      var answer := MerkleProof(h, Run(h, ps), local, id).value;
      && id in s.index && !answer.NoSuchLeaf?
      && (answer.Path? && Verifies(h, id, answer.steps, MerkleRoot(h, Run(h, ps), local))
          <==> SiblingsExist(EvenUp(|s.leaves|), s.index[id]) && (|s.leaves| == 1 ==> h(id, id) == id))
  {
    var mine := ProofsOf(ps, local);
    NodesAreIndependent(h, ps, local);
    RecordAllAgrees(h, mine);
    IndexedIffRecorded(h, mine, id);
    var s := RecordAll(h, mine);
    if id in s.index {
      ProvableIff(h, s.leaves, s.index[id]);
    }
  }

  class LocalReputationStore {
    const hashPair: HashPair
    const localPeer: string
    var nodes: Nodes

    constructor InMemory(h: HashPair, local: string)
      ensures hashPair == h && localPeer == local && nodes == Run(h, [])
    {
      hashPair, localPeer := h, local;
      nodes := map[];
    }

    /** `from_proofs`: the tree and the index, rebuilt from a stored list. */
    method Rebuild(proofs: seq<Proof>, score: Score) returns (s: NodeState)
      ensures s == FromProofs(proofs, score)
    {
      var leaves: seq<Bytes32>, index: map<Bytes32, nat> := [], map[];
      for i := 0 to |proofs|
        invariant leaves == Ids(proofs[..i]) && index == IndexFor(proofs[..i])
      {
        assert proofs[..i + 1][..i] == proofs[..i];
        index := index[proofs[i].id := i];
        leaves := leaves + [proofs[i].id];
      }
      assert proofs[..|proofs|] == proofs;
      return NodeState(proofs, leaves, index, score);
    }

    method RecordProof(p: Proof)
      modifies this
      ensures nodes == RecordIn(hashPair, old(nodes), p)
    {
      var s := NodeOf(nodes, p.node);
      nodes := nodes[p.node := s];
      if p.id in s.index {
        return;
      }
      var leafIndex := |s.leaves|;
      var leaves := s.leaves + [p.id];
      var proofs := s.proofs + [p];
      var score := ComputeScore(proofs, Root(hashPair, leaves));
      nodes := nodes[p.node := NodeState(proofs, leaves, s.index[p.id := leafIndex], score)];
    }

    method GetMerkleRoot() returns (root: Bytes32)
      ensures root == MerkleRoot(hashPair, nodes, localPeer)
    {
      return if localPeer in nodes then Root(hashPair, nodes[localPeer].leaves) else ZeroHash();
    }

    method GetMerkleProof(id: Bytes32) returns (r: Option<Outcome>)
      ensures r == MerkleProof(hashPair, nodes, localPeer, id)
    {
      if localPeer !in nodes {
        return None;
      }
      var s := nodes[localPeer];
      if id !in s.index {
        return None;
      }
      return Some(ProofPath(hashPair, s.leaves, s.index[id]));
    }
  }
}
