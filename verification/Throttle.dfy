/**
 * The bid throttle: a queue of the times of recent wins, cleaned from the front. Instants are
 * nanoseconds; both calls read the clock while they hold the lock, so a history is in order.
 */
module Throttle {
  import opened Machine

  type Instant = int

  const WINDOW: int := 60 * 1_000_000_000

  datatype Op = RecordWin(now: Instant) | Check(now: Instant)

  /** Eviction as the loop does it: from the front, up to the first that is recent enough. */
  function DropFront(wins: seq<Instant>, cutoff: Instant): seq<Instant>
    decreases |wins|
  {
    if wins != [] && wins[0] < cutoff then DropFront(wins[1..], cutoff) else wins
  }

  function Apply(wins: seq<Instant>, op: Op): seq<Instant> {
    match op
    case RecordWin(now) => wins + [now]
    case Check(now) => DropFront(wins, now - WINDOW)
  }

  /** The answer of a check: fewer than four wins for every concurrent job. */
  predicate Allows(wins: seq<Instant>, concurrentJobs: Uint64) {
    |wins| < WrapU64(concurrentJobs * 4)
  }

  class BidDecisionEngine {
    var recentWins: seq<Instant>
    const concurrentJobs: Uint64

    constructor (concurrentJobs: Uint64)
      ensures recentWins == [] && this.concurrentJobs == concurrentJobs
    {
      recentWins := [];
      this.concurrentJobs := concurrentJobs;
    }

    method RecordWin(now: Instant)
      modifies this
      ensures recentWins == old(recentWins) + [now]
    {
      recentWins := recentWins + [now];
    }

    method ThrottleCheck(now: Instant) returns (ok: bool)
      modifies this
      ensures recentWins == DropFront(old(recentWins), now - WINDOW)
      ensures ok == Allows(recentWins, concurrentJobs)
    {
      var maxWins := WrapU64(concurrentJobs * 4);
      var cutoff := now - WINDOW;
      while recentWins != [] && recentWins[0] < cutoff
        invariant DropFront(recentWins, cutoff) == DropFront(old(recentWins), cutoff)
        decreases |recentWins|
      {
        recentWins := recentWins[1..];
      }
      ok := |recentWins| < maxWins;
    }
  }

  // ----- Whole histories -----

  /** The queue after the first `n` operations. */
  function Exec(ops: seq<Op>, n: nat): seq<Instant>
    requires n <= |ops|
  {
    if n == 0 then [] else Apply(Exec(ops, n - 1), ops[n - 1])
  }

  /** How many of the first `n` operations are wins at or after `cutoff`. */
  function WinsSince(ops: seq<Op>, n: nat, cutoff: Instant): nat
    requires n <= |ops|
  {
    if n == 0 then 0
    else WinsSince(ops, n - 1, cutoff) + if ops[n - 1].RecordWin? && ops[n - 1].now >= cutoff then 1 else 0
  }

  predicate InOrder(ops: seq<Op>) {
    forall i, j :: 0 <= i <= j < |ops| ==> ops[i].now <= ops[j].now
  }

  predicate Sorted(wins: seq<Instant>) {
    forall i, j :: 0 <= i <= j < |wins| ==> wins[i] <= wins[j]
  }

  function CountSince(wins: seq<Instant>, cutoff: Instant): nat
    decreases |wins|
  {
    if wins == [] then 0
    else CountSince(wins[..|wins| - 1], cutoff) + if wins[|wins| - 1] >= cutoff then 1 else 0
  }

  lemma {:induction false} AllSince(wins: seq<Instant>, cutoff: Instant)
    requires forall i :: 0 <= i < |wins| ==> wins[i] >= cutoff
    ensures CountSince(wins, cutoff) == |wins|
    decreases |wins|
  {
    if wins != [] {
      AllSince(wins[..|wins| - 1], cutoff);
    }
  }

  /** An old element at the front is not counted. */
  lemma {:induction false} CountTail(wins: seq<Instant>, cutoff: Instant)
    requires wins != [] && wins[0] < cutoff
    ensures CountSince(wins, cutoff) == CountSince(wins[1..], cutoff)
    decreases |wins|
  {
    if |wins| > 1 {
      CountTail(wins[..|wins| - 1], cutoff);
      assert wins[1..][..|wins| - 2] == wins[..|wins| - 1][1..];
    }
  }

  /** Dropping by an earlier cutoff changes no count by a later one. */
  lemma {:induction false} DropKeepsCount(wins: seq<Instant>, early: Instant, late: Instant)
    requires early <= late
    ensures CountSince(DropFront(wins, early), late) == CountSince(wins, late)
    decreases |wins|
  {
    if wins != [] && wins[0] < early {
      CountTail(wins, late);
      DropKeepsCount(wins[1..], early, late);
    }
  }

  lemma {:induction false} QueueCounts(ops: seq<Op>, n: nat, cutoff: Instant)
    requires n <= |ops| && InOrder(ops)
    requires forall i :: 0 <= i < n && ops[i].Check? ==> ops[i].now - WINDOW <= cutoff
    ensures CountSince(Exec(ops, n), cutoff) == WinsSince(ops, n, cutoff)
    decreases n
  {
    if n > 0 {
      QueueCounts(ops, n - 1, cutoff);
      var wins := Exec(ops, n - 1);
      match ops[n - 1]
      case RecordWin(now) =>
        assert (wins + [now])[..|wins|] == wins;
      case Check(now) =>
        DropKeepsCount(wins, now - WINDOW, cutoff);
    }
  }

  /** In order, and nothing after `last`. */
  predicate SortedUpTo(wins: seq<Instant>, last: Instant) {
    Sorted(wins) && forall i :: 0 <= i < |wins| ==> wins[i] <= last
  }

  lemma {:induction false} DropKeepsSorted(wins: seq<Instant>, cutoff: Instant, last: Instant)
    requires SortedUpTo(wins, last)
    ensures SortedUpTo(DropFront(wins, cutoff), last)
    ensures forall i :: 0 <= i < |DropFront(wins, cutoff)| ==> DropFront(wins, cutoff)[i] >= cutoff
    decreases |wins|
  {
    if wins != [] && wins[0] < cutoff {
      DropKeepsSorted(wins[1..], cutoff, last);
    }
  }

  lemma {:induction false} QueueSorted(ops: seq<Op>, n: nat, last: Instant)
    requires n <= |ops| && InOrder(ops) && (n > 0 ==> ops[n - 1].now <= last)
    ensures SortedUpTo(Exec(ops, n), last)
    decreases n
  {
    if n > 0 {
      var now := ops[n - 1].now;
      QueueSorted(ops, n - 1, now);
      if ops[n - 1].Check? {
        DropKeepsSorted(Exec(ops, n - 1), now - WINDOW, now);
      }
    }
  }

  /**
   * In every history, whatever earlier checks have thrown away: a check counts exactly the
   * wins of the sixty seconds before it, and allows a bid exactly when there are fewer than
   * four for every concurrent job.
   */
  lemma CheckCountsLastMinute(ops: seq<Op>, i: nat, concurrentJobs: Uint64)
    requires i < |ops| && InOrder(ops) && ops[i].Check?
    ensures var (queue, wins) := (Exec(ops, i + 1), WinsSince(ops, i, ops[i].now - 60_000_000_000));
      && |queue| == wins
      && (Allows(queue, concurrentJobs) <==> wins < WrapU64(concurrentJobs * 4))
      && (concurrentJobs * 4 < 0x1_0000_0000_0000_0000 ==> (Allows(queue, concurrentJobs) <==> wins < concurrentJobs * 4))
  {
    var cutoff := ops[i].now - WINDOW;
    QueueSorted(ops, i, ops[i].now);
    DropKeepsSorted(Exec(ops, i), cutoff, ops[i].now);
    QueueCounts(ops, i + 1, cutoff);
    AllSince(Exec(ops, i + 1), cutoff);
  }
}
