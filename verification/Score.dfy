/**
 * The on-chain reputation score of a node: saturating totals, an integer moving average of
 * the latency, and the composite recomputed from them after each accepted proof.
 */
module Score {
  import opened Bytes
  import opened Machine
  import opened Options

  datatype Error = Unauthorized | InvalidProofHash

  datatype State = State(
    authority: Bytes32,
    totalJobs: nat,
    totalTokens: nat,
    totalLamports: nat,
    successBps: nat,
    avgLatency: Uint32,
    score: nat)

  datatype Submission = Submission(
    signer: Bytes32, proofHash: Bytes32, tokens: Uint32, latency: Uint32, lamports: nat)

  function NoHash(): Bytes32 {
    seq(32, _ => 0)
  }

  // ----- The handlers as functions -----

  function Initial(authority: Bytes32): State {
    State(authority, 0, 0, 0, 10_000, 0, 0)
  }

  /** `(avg * 9 + sample) / 10` in 64 bits, cast back to `u32`. */
  function MovingAverage(avg: Uint32, sample: Uint32): Uint32 {
    var sum: nat := avg as int * 9 + sample as int;
    sum / 10 % U32
  }

  /** `recompute_score`. */
  function Composite(successBps: nat, totalJobs: nat, avgLatency: nat): nat {
    var success := SaturatingMul(successBps, 400_000_000) / 10_000;
    var jobs := SaturatingMul(Min(totalJobs, 10_000), 400_000_000) / 10_000;
    var latency := SaturatingMul(5_000 - Min(avgLatency, 5_000), 200_000_000) / 5_000;
    success + jobs + latency
  }

  /** The running totals and the average after one more job. */
  function Tallied(s: State, p: Submission): State {
    s.(totalJobs := SaturatingAdd(s.totalJobs, 1),
       totalTokens := SaturatingAdd(s.totalTokens, p.tokens),
       totalLamports := SaturatingAdd(s.totalLamports, p.lamports),
       avgLatency := MovingAverage(s.avgLatency, p.latency))
  }

  function SubmitSpec(s: State, p: Submission): (State, Option<Error>) {
    if s.authority != p.signer then (s, Some(Unauthorized))
    else if p.proofHash == NoHash() then (s, Some(InvalidProofHash))
    else
      var t := Tallied(s, p);
      (t.(score := Composite(t.successBps, t.totalJobs, t.avgLatency)), None)
  }

  function Run(authority: Bytes32, ps: seq<Submission>): State {
    if ps == [] then Initial(authority)
    else SubmitSpec(Run(authority, ps[..|ps| - 1]), ps[|ps| - 1]).0
  }

  // ----- What a run amounts to -----

  predicate Accepted(authority: Bytes32, p: Submission) {
    p.signer == authority && exists i :: 0 <= i < 32 && p.proofHash[i] != 0
  }

  lemma ZeroHash(hash: Bytes32)
    ensures hash == NoHash() <==> forall i :: 0 <= i < 32 ==> hash[i] == 0
  {
  }

  /**
   * Which submissions are refused, and why: those of anybody but the authority, and among the
   * authority's own those with 32 zero bytes as proof hash. All others are accepted.
   */
  lemma RefusedIff(s: State, p: Submission)
    ensures SubmitSpec(s, p).1 ==
      if s.authority != p.signer then Some(Unauthorized)
      else if forall i :: 0 <= i < 32 ==> p.proofHash[i] == 0 then Some(InvalidProofHash)
      else None
    ensures SubmitSpec(s, p).1.None? <==> Accepted(s.authority, p)
    ensures SubmitSpec(s, p).1.Some? ==> SubmitSpec(s, p).0 == s
  {
    ZeroHash(p.proofHash);
  }

  function AcceptedOf(authority: Bytes32, ps: seq<Submission>): seq<Submission> {
    if ps == [] then []
    else
      var front := AcceptedOf(authority, ps[..|ps| - 1]);
      if Accepted(authority, ps[|ps| - 1]) then front + [ps[|ps| - 1]] else front
  }

  function Latencies(ps: seq<Submission>): seq<Uint32> {
    if ps == [] then [] else Latencies(ps[..|ps| - 1]) + [ps[|ps| - 1].latency]
  }

  function TokensOf(ps: seq<Submission>): nat {
    if ps == [] then 0 else TokensOf(ps[..|ps| - 1]) + ps[|ps| - 1].tokens
  }

  function LamportsOf(ps: seq<Submission>): nat {
    if ps == [] then 0 else LamportsOf(ps[..|ps| - 1]) + ps[|ps| - 1].lamports
  }

  /** The average after a sequence of samples, from zero. */
  function Averaged(samples: seq<Uint32>): Uint32 {
    if samples == [] then 0
    else MovingAverage(Averaged(samples[..|samples| - 1]), samples[|samples| - 1])
  }

  /** The weights 40 %, 40 % and 20 %, in units of 40,000. */
  function Formula(successBps: nat, totalJobs: nat, avgLatency: nat): nat {
    40_000 * (successBps + Min(totalJobs, 10_000) + 5_000 - Min(avgLatency, 5_000))
  }

  lemma TenThousandths(part: nat)
    requires part < 65_536
    ensures SaturatingMul(part, 400_000_000) / 10_000 == 40_000 * part
  {
    assert part * 400_000_000 == 10_000 * (40_000 * part) < U64;
  }

  lemma LatencyWeight(saved: nat)
    requires saved <= 5_000
    ensures SaturatingMul(saved, 200_000_000) / 5_000 == 40_000 * saved
  {
    assert saved * 200_000_000 == 5_000 * (40_000 * saved) < U64;
  }

  /** For every `u16` of a success rate nothing saturates and no division has a remainder. */
  lemma CompositeIsFormula(successBps: nat, totalJobs: nat, avgLatency: nat)
    requires successBps < 65_536
    ensures Composite(successBps, totalJobs, avgLatency) == Formula(successBps, totalJobs, avgLatency)
    ensures Composite(successBps, totalJobs, avgLatency) <= 1_000_000_000 <==>
      successBps + Min(totalJobs, 10_000) <= 20_000 + Min(avgLatency, 5_000)
  {
    TenThousandths(successBps);
    TenThousandths(Min(totalJobs, 10_000));
    LatencyWeight(5_000 - Min(avgLatency, 5_000));
  }

  /** The totals of a state are those of the submissions accepted so far. */
  predicate Tallies(s: State, authority: Bytes32, accepted: seq<Submission>) {
    && s.authority == authority && s.successBps == 10_000
    && s.totalJobs == Saturate(|accepted|)
    && s.totalTokens == Saturate(TokensOf(accepted))
    && s.totalLamports == Saturate(LamportsOf(accepted))
  }

  lemma SaturatingTally(total: nat, more: nat)
    ensures SaturatingAdd(Saturate(total), more) == Saturate(total + more)
  {
  }

  lemma AcceptedAppend(accepted: seq<Submission>, p: Submission)
    ensures TokensOf(accepted + [p]) == TokensOf(accepted) + p.tokens
    ensures LamportsOf(accepted + [p]) == LamportsOf(accepted) + p.lamports
  {
    assert (accepted + [p])[..|accepted|] == accepted;
  }

  lemma SubmissionTallies(s: State, authority: Bytes32, accepted: seq<Submission>, p: Submission)
    requires Tallies(s, authority, accepted)
    ensures Tallies(Tallied(s, p), authority, accepted + [p])
  {
    AcceptedAppend(accepted, p);
    SaturatingTally(|accepted|, 1);
    SaturatingTally(TokensOf(accepted), p.tokens);
    SaturatingTally(LamportsOf(accepted), p.lamports);
  }

  lemma {:induction false} RunTallies(authority: Bytes32, ps: seq<Submission>)
    ensures Tallies(Run(authority, ps), authority, AcceptedOf(authority, ps))
  {
    if ps != [] {
      var front, p := ps[..|ps| - 1], ps[|ps| - 1];
      RunTallies(authority, front);
      RefusedIff(Run(authority, front), p);
      if Accepted(authority, p) {
        SubmissionTallies(Run(authority, front), authority, AcceptedOf(authority, front), p);
      }
    }
  }

  lemma LatencyAppend(accepted: seq<Submission>, p: Submission)
    ensures Averaged(Latencies(accepted + [p])) == MovingAverage(Averaged(Latencies(accepted)), p.latency)
  {
    assert (accepted + [p])[..|accepted|] == accepted;
    var l := Latencies(accepted + [p]);
    assert l[..|l| - 1] == Latencies(accepted);
  }

  lemma {:induction false} RunAverages(authority: Bytes32, ps: seq<Submission>)
    ensures Run(authority, ps).authority == authority
    ensures Run(authority, ps).avgLatency == Averaged(Latencies(AcceptedOf(authority, ps)))
  {
    if ps != [] {
      var front, p := ps[..|ps| - 1], ps[|ps| - 1];
      RunAverages(authority, front);
      RefusedIff(Run(authority, front), p);
      if Accepted(authority, p) {
        LatencyAppend(AcceptedOf(authority, front), p);
      }
    }
  }

  lemma {:induction false} RunScores(authority: Bytes32, ps: seq<Submission>)
    ensures var s := Run(authority, ps);
      s.score == if AcceptedOf(authority, ps) == [] then 0 else Composite(10_000, s.totalJobs, s.avgLatency)
  {
    if ps != [] {
      var front := ps[..|ps| - 1];
      RunScores(authority, front);
      RunTallies(authority, front);
      RefusedIff(Run(authority, front), ps[|ps| - 1]);
    }
  }

  /**
   * Only accepted submissions count. The totals are their saturated sums, the average is that
   * of their latencies, and after the first one the score is the weighted sum of capped job
   * count and capped latency, at most 1,000,000,000.
   */
  lemma RunCounts(authority: Bytes32, ps: seq<Submission>)
    ensures var (s, accepted) := (Run(authority, ps), AcceptedOf(authority, ps));
      && Tallies(s, authority, accepted)
      && s.avgLatency == Averaged(Latencies(accepted))
      && s.score == (if accepted == [] then 0 else Formula(10_000, s.totalJobs, s.avgLatency)) <= 1_000_000_000
  {
    RunTallies(authority, ps);
    RunAverages(authority, ps);
    RunScores(authority, ps);
    var s := Run(authority, ps);
    CompositeIsFormula(10_000, s.totalJobs, s.avgLatency);
  }

  // ----- The error of the integer average -----

  /** The exact moving average, over the rationals. */
  ghost function Exact(samples: seq<Uint32>): real {
    if samples == [] then 0.0
    else 0.9 * Exact(samples[..|samples| - 1]) + 0.1 * samples[|samples| - 1] as real
  }

  lemma AverageFits(avg: Uint32, sample: Uint32)
    ensures MovingAverage(avg, sample) == (avg as int * 9 + sample as int) / 10
  {
  }

  lemma TenthDown(t: nat)
    ensures t as real - 9.0 <= 10.0 * (t / 10) as real <= t as real
  {
    assert t - 9 <= 10 * (t / 10) <= t;
    assert (10 * (t / 10)) as real == 10.0 * (t / 10) as real;
  }

  /** Rounding down never costs nine milliseconds, however long the run. */
  lemma {:induction false} AverageError(samples: seq<Uint32>)
    ensures Exact(samples) - 9.0 < Averaged(samples) as real <= Exact(samples)
  {
    if samples != [] {
      var front := samples[..|samples| - 1];
      var x: int, a: int := samples[|samples| - 1], Averaged(front);
      AverageError(front);
      AverageFits(Averaged(front), samples[|samples| - 1]);
      TenthDown(9 * a + x);
      assert (9 * a + x) as real == 9.0 * a as real + x as real;
    }
  }

  /** No division in the run has a remainder. */
  predicate AllDivide(samples: seq<Uint32>) {
    if samples == [] then true
    else
      var front := samples[..|samples| - 1];
      AllDivide(front) && (9 * Averaged(front) + samples[|samples| - 1]) % 10 == 0
  }

  /** One step from an average that is `short` of the exact one. */
  lemma TenthExactIff(exact: real, a: int, x: int)
    requires a >= 0 && x >= 0 && a as real <= exact
    ensures ((9 * a + x) / 10) as real == 0.9 * exact + 0.1 * x as real
      <==> a as real == exact && (9 * a + x) % 10 == 0
  {
    var t := 9 * a + x;
    var tenths := 10 * (t / 10);
    assert tenths == t - t % 10;
    assert tenths as real == 10.0 * (t / 10) as real;
    assert t as real == 9.0 * a as real + x as real;
  }

  /** The stored average is the exact one precisely when nothing was ever rounded. */
  lemma {:induction false} AverageExactIff(samples: seq<Uint32>)
    ensures Averaged(samples) as real == Exact(samples) <==> AllDivide(samples)
  {
    if samples != [] {
      var front := samples[..|samples| - 1];
      AverageError(front);
      AverageExactIff(front);
      AverageFits(Averaged(front), samples[|samples| - 1]);
      TenthExactIff(Exact(front), Averaged(front), samples[|samples| - 1]);
    }
  }

  /** The average after `n` equal samples. */
  function Constant(sample: Uint32, n: nat): Uint32 {
    if n == 0 then 0 else MovingAverage(Constant(sample, n - 1), sample)
  }

  lemma {:induction false} ConstantIsAveraged(sample: Uint32, n: nat)
    ensures Constant(sample, n) == Averaged(seq(n, _ => sample))
  {
    if n > 0 {
      ConstantIsAveraged(sample, n - 1);
      var s := seq(n, _ => sample);
      assert s[..n - 1] == seq(n - 1, _ => sample);
    }
  }

  lemma {:induction false} ConstantClimbs(sample: Uint32, n: nat)
    ensures sample >= 9 ==> Min(n, sample - 9) <= Constant(sample, n) <= sample - 9
    ensures sample < 9 ==> Constant(sample, n) == 0
  {
    if n > 0 {
      ConstantClimbs(sample, n - 1);
      AverageFits(Constant(sample, n - 1), sample);
    }
  }

  /**
   * Under a constant latency the average settles nine milliseconds below it (at zero when the
   * latency is below nine), and stays there.
   */
  lemma ConstantSettles(sample: Uint32, n: nat)
    requires n >= sample
    ensures Constant(sample, n) == if sample >= 9 then sample - 9 else 0
    ensures Averaged(seq(n, _ => sample)) == Constant(sample, n)
  {
    ConstantClimbs(sample, n);
    ConstantIsAveraged(sample, n);
  }

  // ----- The account -----

  class NodeScore {
    const authority: Bytes32
    var totalJobs: nat
    var totalTokens: nat
    var totalLamports: nat
    var successBps: nat
    var avgLatency: Uint32
    var score: nat
    var lastUpdated: int

    ghost function View(): State
      reads this
    {
      State(authority, totalJobs, totalTokens, totalLamports, successBps, avgLatency, score)
    }

    /** `initialize_score`. */
    constructor (owner: Bytes32, now: int)
      ensures View() == Initial(owner) && lastUpdated == now
    {
      authority := owner;
      totalJobs, totalTokens, totalLamports := 0, 0, 0;
      successBps, avgLatency, score := 10_000, 0, 0;
      lastUpdated := now;
    }

    method RecomputeScore()
      modifies this`score
      ensures score == Composite(successBps, totalJobs, avgLatency)
    {
      var success := SaturatingMul(successBps, 400_000_000) / 10_000;
      var jobs := SaturatingMul(Min(totalJobs, 10_000), 400_000_000) / 10_000;
      var latency := SaturatingMul(5_000 - Min(avgLatency, 5_000), 200_000_000) / 5_000;
      score := success + jobs + latency;
    }

    method SubmitProof(p: Submission, now: int) returns (error: Option<Error>)
      modifies this
      ensures (View(), error) == SubmitSpec(old(View()), p)
      ensures lastUpdated == if error.None? then now else old(lastUpdated)
    {
      hide Composite, SaturatingMul;
      if authority != p.signer {
        return Some(Unauthorized);
      }
      if p.proofHash == NoHash() {
        return Some(InvalidProofHash);
      }
      totalJobs := SaturatingAdd(totalJobs, 1);
      totalTokens := SaturatingAdd(totalTokens, p.tokens);
      totalLamports := SaturatingAdd(totalLamports, p.lamports);
      var sum: nat := avgLatency as int * 9 + p.latency as int;
      avgLatency := sum / 10 % U32;
      RecomputeScore();
      lastUpdated := now;
      return None;
    }
  }
}
