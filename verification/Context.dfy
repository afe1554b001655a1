/**
 * Fitting a conversation into a token budget: the backward walks of the summariser and of the
 * session manager, with their 32-bit token counts.
 */
module Context {
  import opened Bytes
  import opened Machine

  datatype Role = User | Assistant | System

  datatype Message = Message(role: Role, content: seq<Byte>)

  /** `(text.len() as u32 / 4).max(1)`. */
  function EstimateTokens(text: seq<Byte>): (cost: nat)
    ensures 1 <= cost < U32 / 4
  {
    var quarter := WrapU32(|text|) / 4;
    if quarter < 1 then 1 else quarter
  }

  /** The exact total of the messages from `i` on, on unbounded integers. */
  function Tokens(ms: seq<Message>, i: nat): nat
    requires i <= |ms|
    decreases |ms| - i
  {
    if i == |ms| then 0 else EstimateTokens(ms[i].content) + Tokens(ms, i + 1)
  }

  /** One token for every four bytes, rounded down, and at least one; lengths are cast to 32 bits. */
  lemma EstimateIsQuarter(text: seq<Byte>)
    ensures var (n, cost) := (|text| % 0x1_0000_0000, EstimateTokens(text));
      (n < 4 ==> cost == 1) && (n >= 4 ==> 4 * cost <= n < 4 * cost + 4)
  {
  }

  /** The bytes of the messages from `i` on. */
  function BytesFrom(ms: seq<Message>, i: nat): nat
    requires i <= |ms|
    decreases |ms| - i
  {
    if i == |ms| then 0 else |ms[i].content| + BytesFrom(ms, i + 1)
  }

  /**
   * What a total says about the text: four bytes a token, and at most three more for each
   * message that the rounding hides. Messages below four bytes count as four.
   */
  lemma {:induction false} TokensAreQuarters(ms: seq<Message>, i: nat)
    requires i <= |ms|
    requires forall j :: i <= j < |ms| ==> |ms[j].content| < 0x1_0000_0000
    ensures BytesFrom(ms, i) <= 4 * Tokens(ms, i) + 3 * (|ms| - i)
    ensures 4 * Tokens(ms, i) <= BytesFrom(ms, i) + 4 * (|ms| - i)
    ensures (forall j :: i <= j < |ms| ==> |ms[j].content| >= 4) ==> 4 * Tokens(ms, i) <= BytesFrom(ms, i)
    decreases |ms| - i
  {
    hide EstimateTokens;
    if i < |ms| {
      EstimateIsQuarter(ms[i].content);
      TokensAreQuarters(ms, i + 1);
    }
  }

  lemma {:induction false} TokensMonotone(ms: seq<Message>, i: nat, j: nat)
    requires i <= j <= |ms|
    ensures Tokens(ms, j) + (j - i) <= Tokens(ms, i)
    decreases j - i
  {
    if i < j {
      TokensMonotone(ms, i + 1, j);
    }
  }

  lemma {:induction false} TokensOfSuffix(ms: seq<Message>, k: nat, i: nat)
    requires k <= i <= |ms|
    ensures Tokens(ms[k..], i - k) == Tokens(ms, i)
    decreases |ms| - i
  {
    if i < |ms| {
      TokensOfSuffix(ms, k, i + 1);
    }
  }

  // ----- The longest suffix within a budget -----

  predicate Fits(ms: seq<Message>, k: nat, budget: nat)
    requires k <= |ms|
  {
    Tokens(ms, k) <= budget
  }

  /** From `k` on is the longest suffix of `ms` that fits. */
  predicate IsLongest(ms: seq<Message>, k: nat, budget: nat) {
    k <= |ms| && Fits(ms, k, budget) && forall j :: 0 <= j < k ==> !Fits(ms, j, budget)
  }

  lemma NoneFits(ms: seq<Message>, i: nat, budget: nat)
    requires 0 < i <= |ms| && !Fits(ms, i - 1, budget)
    ensures forall j :: 0 <= j < i ==> !Fits(ms, j, budget)
  {
    forall j | 0 <= j < i
      ensures !Fits(ms, j, budget)
    {
      TokensMonotone(ms, j, i - 1);
    }
  }

  function LongestFrom(ms: seq<Message>, i: nat, budget: nat): (k: nat)
    requires i <= |ms| && Fits(ms, i, budget)
    ensures IsLongest(ms, k, budget) && k <= i
  {
    if i == 0 then 0
    else if Fits(ms, i - 1, budget) then LongestFrom(ms, i - 1, budget)
    else
      assert forall j :: 0 <= j < i ==> !Fits(ms, j, budget) by { NoneFits(ms, i, budget); }
      i
  }

  /** Where the longest suffix begins. */
  function Longest(ms: seq<Message>, budget: nat): (k: nat)
    ensures IsLongest(ms, k, budget)
  {
    LongestFrom(ms, |ms|, budget)
  }

  lemma LongestIsUnique(ms: seq<Message>, k: nat, budget: nat)
    requires IsLongest(ms, k, budget)
    ensures k == Longest(ms, budget)
  {
  }

  // ----- The walk -----

  /**
   * The walk with its wrapping addition, from just before `i` with `kept` tokens counted:
   * where it stops, and what it has counted.
   */
  function Walk(ms: seq<Message>, i: nat, kept: Uint32, budget: Uint32): (end: (nat, Uint32))
    requires i <= |ms|
    ensures end.0 <= i
  {
    if i == 0 then (0, kept)
    else
      var total := WrapU32(kept + EstimateTokens(ms[i - 1].content));
      if total > budget then (i, kept) else Walk(ms, i - 1, total, budget)
  }

  lemma WrapAdds(a: nat, b: nat)
    ensures WrapU32(WrapU32(a) + b) == WrapU32(a + b)
  {
  }

  /** The messages from `i` on are over the budget, as far as 32 bits show. */
  predicate Over(ms: seq<Message>, i: nat, budget: Uint32)
    requires i <= |ms|
  {
    WrapU32(Tokens(ms, i)) > budget
  }

  /**
   * What the walk does, whether the count wraps or not: it stops behind the last message from
   * which on the counted tokens are over the budget, with the count of what is kept.
   */
  predicate StopsBehindLastOver(ms: seq<Message>, from: nat, end: (nat, Uint32), budget: Uint32)
    requires from <= |ms|
  {
    && end.0 <= from && end.1 == WrapU32(Tokens(ms, end.0))
    && (forall i :: end.0 <= i < from ==> !Over(ms, i, budget))
    && (end.0 > 0 ==> Over(ms, end.0 - 1, budget))
  }

  lemma {:induction false} WalkStopsBehindLastOver(ms: seq<Message>, i: nat, budget: Uint32)
    requires i <= |ms|
    ensures StopsBehindLastOver(ms, i, Walk(ms, i, WrapU32(Tokens(ms, i)), budget), budget)
    decreases i
  {
    if i > 0 {
      WrapAdds(Tokens(ms, i), EstimateTokens(ms[i - 1].content));
      if !Over(ms, i - 1, budget) {
        WalkStopsBehindLastOver(ms, i - 1, budget);
      }
    }
  }

  /** The split drops something exactly when some suffix counts as over the budget. */
  lemma SplitDropsIff(ms: seq<Message>, budget: Uint32)
    ensures Walk(ms, |ms|, 0, budget).0 > 0 <==> exists i :: 0 <= i < |ms| && Over(ms, i, budget)
  {
    WalkStopsBehindLastOver(ms, |ms|, budget);
    assert WrapU32(Tokens(ms, |ms|)) == 0;
  }

  /** The addition that goes over the budget does not go over 2^32 with it. */
  predicate StopsBeforeWrap(ms: seq<Message>, budget: Uint32) {
    var k := Longest(ms, budget);
    k == 0 || Tokens(ms, k - 1) < U32
  }

  lemma WrapSmall(n: nat)
    requires n < U32
    ensures WrapU32(n) == n
  {
  }

  lemma WalkStep(ms: seq<Message>, i: nat, kept: nat, budget: Uint32)
    requires 0 < i <= |ms| && kept + EstimateTokens(ms[i - 1].content) <= budget
    ensures Walk(ms, i, kept, budget) == Walk(ms, i - 1, kept + EstimateTokens(ms[i - 1].content), budget)
  {
    WrapSmall(kept + EstimateTokens(ms[i - 1].content));
  }

  /** Down to any suffix that fits the walk counts exactly. */
  lemma {:induction false} WalkCountsExactly(ms: seq<Message>, k: nat, i: nat, budget: Uint32)
    requires k <= i <= |ms| && Tokens(ms, k) <= budget
    ensures Tokens(ms, i) <= budget && Walk(ms, i, Tokens(ms, i), budget) == Walk(ms, k, Tokens(ms, k), budget)
    decreases i
  {
    if k < i {
      WalkCountsExactly(ms, k, i - 1, budget);
      WalkStep(ms, i, Tokens(ms, i), budget);
    }
  }

  /**
   * Exactly when the walk keeps the longest suffix within the budget: when the first message
   * that no longer fits does not push the count over 2^32. Otherwise the wrapped count looks
   * small and the walk keeps more than fits. When it is right, so is its count.
   */
  lemma WalkFindsLongestIff(ms: seq<Message>, budget: Uint32)
    ensures Walk(ms, |ms|, 0, budget).0 == Longest(ms, budget) <==> StopsBeforeWrap(ms, budget)
    ensures StopsBeforeWrap(ms, budget) ==> Walk(ms, |ms|, 0, budget).1 == Tokens(ms, Longest(ms, budget))
    ensures !StopsBeforeWrap(ms, budget) ==> !Fits(ms, Walk(ms, |ms|, 0, budget).0, budget)
  {
    var k := Longest(ms, budget);
    assert Fits(ms, k, budget);
    assert Tokens(ms, |ms|) == 0;
    WalkCountsExactly(ms, k, |ms|, budget);
    if k > 0 {
      var kept := Tokens(ms, k);
      assert !Fits(ms, k - 1, budget);
      var exact := Tokens(ms, k - 1);
      if exact >= U32 {
        assert WrapU32(exact) == exact - U32 <= budget;
      }
    }
  }

  /** A budget of at most three quarters of 2^32 is always safe. */
  lemma SmallBudgetsAreSafe(ms: seq<Message>, budget: Uint32)
    requires budget <= U32 / 4 * 3
    ensures StopsBeforeWrap(ms, budget)
  {
    var k := Longest(ms, budget);
    if k > 0 {
      assert Fits(ms, k, budget);
    }
  }

  // ----- The two users of the walk -----

  /** `split_messages`: in order, nothing lost, and cut where the walk stops. */
  method SplitMessages(ms: seq<Message>, keepTokens: Uint32) returns (toSummarise: seq<Message>, toKeep: seq<Message>)
    ensures toSummarise + toKeep == ms
    ensures |toSummarise| == Walk(ms, |ms|, 0, keepTokens).0
    ensures StopsBeforeWrap(ms, keepTokens) ==> |toSummarise| == Longest(ms, keepTokens)
  {
    var keptTokens: Uint32 := 0;
    var keepFrom := |ms|;
    var i := |ms|;
    while i > 0
      invariant 0 <= i == keepFrom <= |ms|
      invariant Walk(ms, i, keptTokens, keepTokens) == Walk(ms, |ms|, 0, keepTokens)
    {
      i := i - 1;
      var cost := EstimateTokens(ms[i].content);
      if WrapU32(keptTokens + cost) > keepTokens {
        keepFrom := i + 1;
        break;
      }
      keptTokens := WrapU32(keptTokens + cost);
      keepFrom := i;
    }
    WalkFindsLongestIff(ms, keepTokens);
    toSummarise := ms[..keepFrom];
    toKeep := ms[keepFrom..];
  }

  /** `needs_summarisation`: the sum wraps around as well. */
  method NeedsSummarisation(ms: seq<Message>, threshold: Uint32) returns (needed: bool)
    ensures needed <==> WrapU32(Tokens(ms, 0)) > threshold
  {
    var total: Uint32 := 0;
    for i := 0 to |ms|
      invariant WrapU32(total + Tokens(ms, i)) == WrapU32(Tokens(ms, 0))
    {
      var cost := EstimateTokens(ms[i].content);
      WrapAdds(total + cost, Tokens(ms, i + 1));
      total := WrapU32(total + cost);
    }
    needed := total > threshold;
  }

  lemma SuffixesAreSmaller(ms: seq<Message>, k: nat)
    requires k <= |ms|
    ensures k > 0 ==> Tokens(ms, k - 1) <= Tokens(ms, 0)
  {
    if k > 0 {
      TokensMonotone(ms, 0, k - 1);
    }
  }

  /** The two agree, where no total wraps: summarisation is needed exactly when the split drops something. */
  lemma NeededIffSplitDrops(ms: seq<Message>, threshold: Uint32)
    requires Tokens(ms, 0) < U32
    ensures WrapU32(Tokens(ms, 0)) > threshold <==> Walk(ms, |ms|, 0, threshold).0 > 0
  {
    SuffixesAreSmaller(ms, Longest(ms, threshold));
    WalkFindsLongestIff(ms, threshold);
    assert Fits(ms, 0, threshold) <==> Tokens(ms, 0) <= threshold;
  }

  /**
   * And exactly when they agree, for every threshold: when the total is over it as the count
   * shows it, or the total of no suffix is. Otherwise the split drops messages that nobody
   * asks to summarise.
   */
  lemma NeededIffSplitDropsIff(ms: seq<Message>, threshold: Uint32)
    ensures (WrapU32(Tokens(ms, 0)) > threshold <==> Walk(ms, |ms|, 0, threshold).0 > 0)
      <==> Over(ms, 0, threshold) || forall i :: 0 <= i < |ms| ==> !Over(ms, i, threshold)
  {
    SplitDropsIff(ms, threshold);
    assert |ms| > 0 || !Over(ms, 0, threshold);
  }

  /** For a safe threshold: unless the total wraps around to something that is not over it. */
  lemma NeededIffSplitDropsWhenSafe(ms: seq<Message>, threshold: Uint32)
    requires threshold <= U32 / 4 * 3
    ensures (WrapU32(Tokens(ms, 0)) > threshold <==> Walk(ms, |ms|, 0, threshold).0 > 0)
      <==> (Tokens(ms, 0) < U32 || WrapU32(Tokens(ms, 0)) > threshold)
  {
    SmallBudgetsAreSafe(ms, threshold);
    WalkFindsLongestIff(ms, threshold);
    assert Fits(ms, 0, threshold) <==> Tokens(ms, 0) <= threshold;
  }

  // ----- Where the count does wrap -----

  /** Five messages of 2^32 - 1 bytes. */
  function FiveLong(): (ms: seq<Message>)
    ensures |ms| == 5 && forall i :: 0 <= i < 5 ==> EstimateTokens(ms[i].content) == U32 / 4 - 1
  {
    seq(5, (i: nat) => Message(User, seq(U32 - 1, _ => 97)))
  }

  lemma FiveLongTokens(i: nat)
    requires i <= 5
    ensures Tokens(FiveLong(), i) == (5 - i) * (U32 / 4 - 1)
    decreases 5 - i
  {
    if i < 5 {
      FiveLongTokens(i + 1);
    }
  }

  /** With the largest budget four of them fit, but the walk keeps all five. */
  lemma FiveLongKeptWhole()
    ensures var ms, budget := FiveLong(), U32 - 1;
      Longest(ms, budget) == 1 && !StopsBeforeWrap(ms, budget)
      && Walk(ms, |ms|, 0, budget).0 == 0 && Tokens(ms, 0) > budget
  {
    var ms, budget := FiveLong(), U32 - 1;
    FiveLongTokens(0);
    FiveLongTokens(1);
    assert !Fits(ms, 0, budget) && Fits(ms, 1, budget);
    LongestIsUnique(ms, 1, budget);
    WalkFindsLongestIff(ms, budget);
    WalkCountsExactly(ms, 1, 5, budget);
    assert Tokens(ms, 5) == 0;
  }

  /** With the largest safe threshold two of them are dropped, but no summary is asked for. */
  lemma FiveLongDroppedUnsummarised()
    ensures var ms, threshold := FiveLong(), U32 / 4 * 3;
      WrapU32(Tokens(ms, 0)) <= threshold && Walk(ms, |ms|, 0, threshold).0 == 2
  {
    var ms, threshold := FiveLong(), U32 / 4 * 3;
    FiveLongTokens(0);
    FiveLongTokens(1);
    FiveLongTokens(2);
    assert !Fits(ms, 0, threshold) && !Fits(ms, 1, threshold) && Fits(ms, 2, threshold);
    LongestIsUnique(ms, 2, threshold);
    SmallBudgetsAreSafe(ms, threshold);
    WalkFindsLongestIff(ms, threshold);
  }

  // ----- The context window -----

  /** Three quarters of the model's window, and at least 512. */
  function Budget(modelMaxTokens: Uint32): (budget: Uint32)
    ensures 512 <= budget < U32 / 4
  {
    var b := WrapU32(modelMaxTokens * 3) / 4;
    if b < 512 then 512 else b
  }

  datatype ContextWindow = ContextWindow(recent: seq<Message>, totalTokens: Uint32)

  function Reversed(ms: seq<Message>): seq<Message>
    decreases |ms|
  {
    if ms == [] then [] else Reversed(ms[1..]) + [ms[0]]
  }

  lemma {:induction false} ReversedStep(ms: seq<Message>, m: Message)
    ensures Reversed(ms + [m]) == [m] + Reversed(ms)
    decreases |ms|
  {
    if ms == [] {
      assert (ms + [m])[1..] == [];
    } else {
      assert (ms + [m])[1..] == ms[1..] + [m];
      ReversedStep(ms[1..], m);
      assert [m] + Reversed(ms[1..]) + [ms[0]] == [m] + (Reversed(ms[1..]) + [ms[0]]);
    }
  }

  /**
   * `build_context_window`: for every session and every model, the longest suffix of the
   * messages within the budget, in order, with its exact total.
   */
  method BuildContextWindow(ms: seq<Message>, modelMaxTokens: Uint32) returns (w: ContextWindow)
    ensures w.recent == ms[Longest(ms, Budget(modelMaxTokens))..]
    ensures w.totalTokens == Tokens(w.recent, 0) <= Budget(modelMaxTokens)
  {
    var budget := Budget(modelMaxTokens);
    var recent: seq<Message> := [];
    var usedTokens: Uint32 := 0;
    var i := |ms|;
    while i > 0
      invariant 0 <= i <= |ms| && Reversed(recent) == ms[i..]
      invariant Walk(ms, i, usedTokens, budget) == Walk(ms, |ms|, 0, budget)
    {
      var cost := EstimateTokens(ms[i - 1].content);
      if WrapU32(usedTokens + cost) > budget {
        break;
      }
      usedTokens := WrapU32(usedTokens + cost);
      ReversedStep(recent, ms[i - 1]);
      assert ms[i - 1..] == [ms[i - 1]] + ms[i..];
      recent := recent + [ms[i - 1]];
      i := i - 1;
    }
    SmallBudgetsAreSafe(ms, budget);
    WalkFindsLongestIff(ms, budget);
    TokensOfSuffix(ms, i, i);
    w := ContextWindow(Reversed(recent), usedTokens);
  }

  /** A quarter is reserved exactly when tripling the window does not wrap, and 512 is not forced. */
  lemma BudgetReservesQuarterIff(modelMaxTokens: Uint32)
    ensures Budget(modelMaxTokens) == modelMaxTokens * 3 / 4
      <==> 683 <= modelMaxTokens && modelMaxTokens * 3 < U32
    ensures Budget(modelMaxTokens) <= modelMaxTokens <==> 512 <= modelMaxTokens
    ensures modelMaxTokens < 683 ==> Budget(modelMaxTokens) == 512
    ensures modelMaxTokens * 3 >= 0x1_0000_0000 ==>
      var wrapped := (modelMaxTokens * 3) % 0x1_0000_0000;
      (wrapped < 2048 ==> Budget(modelMaxTokens) == 512)
      && (wrapped >= 2048 ==> 4 * Budget(modelMaxTokens) <= wrapped < 4 * Budget(modelMaxTokens) + 4)
  {
  }

  /** A single message of 512 tokens. */
  function OneMessage(): (ms: seq<Message>)
    ensures Tokens(ms, 0) == 512
  {
    [Message(User, seq(2048, _ => 97))]
  }

  /** The window fits the model, for every session, exactly when the model takes 512 tokens. */
  lemma WindowFitsModelIff(modelMaxTokens: Uint32)
    ensures (forall ms :: Tokens(ms, Longest(ms, Budget(modelMaxTokens))) <= modelMaxTokens)
      <==> 512 <= modelMaxTokens
  {
    var budget := Budget(modelMaxTokens);
    BudgetReservesQuarterIff(modelMaxTokens);
    if 512 <= modelMaxTokens {
      forall ms: seq<Message>
        ensures Tokens(ms, Longest(ms, budget)) <= modelMaxTokens
      {
        assert Fits(ms, Longest(ms, budget), budget);
      }
    } else {
      var ms := OneMessage();
      assert IsLongest(ms, 0, budget);
      LongestIsUnique(ms, 0, budget);
      assert Tokens(ms, Longest(ms, budget)) > modelMaxTokens;
    }
  }
}
