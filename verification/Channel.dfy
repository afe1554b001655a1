/**
 * The off-chain payment channel in its in-memory mode: a channel per request, opened with a
 * locked amount, closed by a release that moves the cost to the node or by a refund.
 */
module Channel {
  import opened Machine
  import opened Options
  import opened Sums

  type RequestId = string
  datatype Balances = Balances(client: Uint64, node: Uint64, sequence: nat, settled: bool)

  datatype Error = AlreadyOpen | NoChannel | CostExceedsBalance

  datatype State = State(channels: map<RequestId, Balances>, totalSettled: Uint64)

  datatype Call =
    | Lock(id: RequestId, amount: Uint64)
    | Release(id: RequestId, cost: Uint64)
    | Refund(id: RequestId)

  function Empty(): State {
    State(map[], 0)
  }

  function Step(s: State, call: Call): (State, Option<Error>) {
    match call
    case Lock(id, amount) =>
      if id in s.channels then (s, Some(AlreadyOpen))
      else (s.(channels := s.channels[id := Balances(amount, 0, 0, false)]), None)
    case Release(id, cost) =>
      if id !in s.channels then (s, Some(NoChannel))
      else
        var b := s.channels[id];
        if b.settled then (s, None)
        else if cost > b.client then (s, Some(CostExceedsBalance))
        else
          var closed := Balances(b.client - cost, WrapU64(b.node + cost), b.sequence + 1, true);
          (State(s.channels[id := closed], WrapU64(s.totalSettled + cost)), None)
    case Refund(id) =>
      if id !in s.channels then (s, Some(NoChannel))
      else if s.channels[id].settled then (s, None)
      else (s.(channels := s.channels[id := s.channels[id].(settled := true)]), None)
  }

  function Run(s: State, calls: seq<Call>): State {
    if calls == [] then s else Step(Run(s, calls[..|calls| - 1]), calls[|calls| - 1]).0
  }

  // ----- Conservation -----

  /** The amount of the first lock of a request. */
  function LockedAmount(calls: seq<Call>, id: RequestId): Option<nat> {
    if calls == [] then None
    else
      var before, last := LockedAmount(calls[..|calls| - 1], id), calls[|calls| - 1];
      if before.Some? then before
      else if last.Lock? && last.id == id then Some(last.amount)
      else None
  }

  /** A channel accounts for its locked amount, all of it the client's until it is settled. */
  predicate Accounts(b: Balances, locked: nat) {
    && b.client + b.node == locked
    && (!b.settled ==> b.sequence == 0)
    && (b.sequence == 0 ==> b.node == 0)
    && b.sequence <= 1
  }

  function NodeBalance(b: Balances): nat {
    b.node
  }

  ghost predicate Inv(s: State, calls: seq<Call>) {
    && (forall id :: id in s.channels <==> LockedAmount(calls, id).Some?)
    && (forall id :: id in s.channels ==> Accounts(s.channels[id], LockedAmount(calls, id).value))
    && s.totalSettled == Sum(s.channels, NodeBalance) % U64
  }

  lemma LockedAmountAppend(calls: seq<Call>, call: Call, id: RequestId)
    ensures LockedAmount(calls + [call], id) ==
      if LockedAmount(calls, id).None? && call.Lock? && call.id == id then Some(call.amount)
      else LockedAmount(calls, id)
  {
    assert (calls + [call])[..|calls|] == calls;
  }

  lemma StepKeepsAccounts(s: State, calls: seq<Call>, call: Call)
    requires Inv(s, calls)
    ensures var t := Step(s, call).0;
      && (forall id :: id in t.channels <==> LockedAmount(calls + [call], id).Some?)
      && (forall id :: id in t.channels ==> Accounts(t.channels[id], LockedAmount(calls + [call], id).value))
  {
    var t := Step(s, call).0;
    forall id
      ensures id in t.channels <==> LockedAmount(calls + [call], id).Some?
      ensures id in t.channels ==> Accounts(t.channels[id], LockedAmount(calls + [call], id).value)
    {
      LockedAmountAppend(calls, call, id);
      assert id in s.channels ==> Accounts(s.channels[id], LockedAmount(calls, id).value);
    }
  }

  /** The total after one channel has changed. */
  lemma TotalMoves(s: State, id: RequestId, b: Balances)
    ensures Sum(s.channels[id := b], NodeBalance)
         == Sum(s.channels, NodeBalance) - (if id in s.channels then s.channels[id].node else 0) + b.node
  {
    SumUpdate(s.channels, NodeBalance, id, b);
  }

  predicate Pays(s: State, call: Call) {
    call.Release? && call.id in s.channels && !s.channels[call.id].settled && call.cost <= s.channels[call.id].client
  }

  predicate NodeWaits(s: State, id: RequestId) {
    id in s.channels && !s.channels[id].settled ==> s.channels[id].node == 0
  }

  lemma UnsettledPaidNothing(s: State, calls: seq<Call>, id: RequestId)
    requires Inv(s, calls)
    ensures NodeWaits(s, id)
  {
    if id in s.channels {
      assert Accounts(s.channels[id], LockedAmount(calls, id).value);
    }
  }

  function CostPaid(s: State, call: Call): nat {
    if Pays(s, call) then call.cost else 0
  }

  /** A call changes at most its own channel, and that channel's node balance by what it pays. */
  lemma StepMovesNode(s: State, call: Call)
    requires NodeWaits(s, call.id)
    ensures var t := Step(s, call).0;
      if t.channels == s.channels then CostPaid(s, call) == 0
      else
        && call.id in t.channels
        && t.channels == s.channels[call.id := t.channels[call.id]]
        && t.channels[call.id].node == (if call.id in s.channels then s.channels[call.id].node else 0) + CostPaid(s, call)
  {
  }

  /** Only a release that closes its channel moves the total, and by its cost. */
  lemma StepMovesTotal(s: State, call: Call)
    requires NodeWaits(s, call.id)
    ensures Sum(Step(s, call).0.channels, NodeBalance) == Sum(s.channels, NodeBalance) + CostPaid(s, call)
  {
    var t := Step(s, call).0;
    StepMovesNode(s, call);
    if t.channels != s.channels {
      TotalMoves(s, call.id, t.channels[call.id]);
    }
  }

  lemma CounterFollows(s: State, call: Call)
    ensures Step(s, call).0.totalSettled == WrapU64(s.totalSettled + CostPaid(s, call))
  {
  }

  lemma ModAdd(a: nat, b: nat)
    ensures WrapU64(a % U64 + b) == (a + b) % U64
  {
  }

  lemma StepKeepsTotal(s: State, calls: seq<Call>, call: Call)
    requires Inv(s, calls)
    ensures var t := Step(s, call).0; t.totalSettled == Sum(t.channels, NodeBalance) % U64
  {
    UnsettledPaidNothing(s, calls, call.id);
    StepMovesTotal(s, call);
    CounterFollows(s, call);
    ModAdd(Sum(s.channels, NodeBalance), CostPaid(s, call));
  }

  /**
   * Over every run, exactly the requests ever locked have a channel, client and node together
   * hold the amount first locked, and the settled total is the sum of the node balances (as
   * the 64-bit counter holds it).
   */
  lemma {:induction false} RunConserves(calls: seq<Call>)
    ensures Inv(Run(Empty(), calls), calls)
  {
    if calls != [] {
      var front, call := calls[..|calls| - 1], calls[|calls| - 1];
      RunConserves(front);
      StepKeepsAccounts(Run(Empty(), front), front, call);
      StepKeepsTotal(Run(Empty(), front), front, call);
      assert front + [call] == calls;
    }
  }

  // ----- The fate of one request -----

  /** All that can happen to a request, as its own calls decide it. */
  datatype Fate = Unopened | Open(amount: Uint64) | Paid(amount: Uint64, cost: Uint64) | Returned(amount: Uint64)

  function Fates(calls: seq<Call>, id: RequestId): Fate {
    if calls == [] then Unopened
    else
      var f, call := Fates(calls[..|calls| - 1], id), calls[|calls| - 1];
      if call.id != id then f
      else if f.Unopened? && call.Lock? then Open(call.amount)
      else if f.Open? && call.Release? && call.cost <= f.amount then Paid(f.amount, call.cost)
      else if f.Open? && call.Refund? then Returned(f.amount)
      else f
  }

  predicate Shows(s: State, id: RequestId, f: Fate) {
    match f
    case Unopened => id !in s.channels
    case Open(amount) => id in s.channels && s.channels[id] == Balances(amount, 0, 0, false)
    case Paid(amount, cost) => cost <= amount && id in s.channels && s.channels[id] == Balances(amount - cost, cost, 1, true)
    case Returned(amount) => id in s.channels && s.channels[id] == Balances(amount, 0, 0, true)
  }

  /**
   * The state is exactly what each request's own calls make of it: the first lock opens it,
   * and the first refund or affordable release after that decides it for good.
   */
  lemma {:induction false} RunShowsFates(calls: seq<Call>, id: RequestId)
    ensures Shows(Run(Empty(), calls), id, Fates(calls, id))
  {
    if calls != [] {
      RunShowsFates(calls[..|calls| - 1], id);
    }
  }

  /**
   * Which calls fail after a run, and why, as the request's own calls decide it: a lock of a
   * request that was ever opened, a release or refund of one that never was, and a release
   * above the balance of an open channel. A release or refund of a settled one succeeds.
   */
  lemma CallFailsIff(calls: seq<Call>, call: Call)
    ensures var f := Fates(calls, call.id);
      Step(Run(Empty(), calls), call).1 ==
      if call.Lock? then (if f.Unopened? then None else Some(AlreadyOpen))
      else if f.Unopened? then Some(NoChannel)
      else if call.Release? && f.Open? && call.cost > f.amount then Some(CostExceedsBalance)
      else None
    ensures Step(Run(Empty(), calls), call).1.Some? ==> Step(Run(Empty(), calls), call).0 == Run(Empty(), calls)
  {
    RunShowsFates(calls, call.id);
  }

  // ----- Once only -----

  /** A settled channel never changes again. */
  lemma {:induction false} SettledForGood(s: State, calls: seq<Call>, id: RequestId)
    requires id in s.channels && s.channels[id].settled
    ensures id in Run(s, calls).channels && Run(s, calls).channels[id] == s.channels[id]
  {
    if calls != [] {
      SettledForGood(s, calls[..|calls| - 1], id);
    }
  }

  /** How often a request was opened. */
  function Openings(calls: seq<Call>, id: RequestId): nat {
    if calls == [] then 0
    else
      var front, call := calls[..|calls| - 1], calls[|calls| - 1];
      Openings(front, id)
      + if call.Lock? && call.id == id && Step(Run(Empty(), front), call).1.None? then 1 else 0
  }

  /** A request is opened once, however often it is locked, and its channel never goes away. */
  lemma {:induction false} OpenedOnce(calls: seq<Call>, id: RequestId)
    ensures Openings(calls, id) == if id in Run(Empty(), calls).channels then 1 else 0
  {
    if calls != [] {
      OpenedOnce(calls[..|calls| - 1], id);
    }
  }

  /** A failed call changes nothing; a successful one touches no channel but its own. */
  lemma CallsAreLocal(s: State, call: Call)
    ensures Step(s, call).1.Some? ==> Step(s, call).0 == s
    ensures forall id :: id != call.id ==>
      (id in Step(s, call).0.channels <==> id in s.channels)
      && (id in s.channels ==> Step(s, call).0.channels[id] == s.channels[id])
  {
  }

  // ----- The adapter -----

  class PaymentChannel {
    var channels: map<RequestId, Balances>
    var totalSettled: Uint64

    ghost function View(): State
      reads this
    {
      State(channels, totalSettled)
    }

    constructor ()
      ensures View() == Empty()
    {
      channels, totalSettled := map[], 0;
    }

    method LockFunds(id: RequestId, amount: Uint64) returns (error: Option<Error>)
      modifies this
      ensures (View(), error) == Step(old(View()), Lock(id, amount))
    {
      if id in channels {
        return Some(AlreadyOpen);
      }
      channels := channels[id := Balances(amount, 0, 0, false)];
      return None;
    }

    method ReleaseFunds(id: RequestId, cost: Uint64) returns (error: Option<Error>)
      modifies this
      ensures (View(), error) == Step(old(View()), Release(id, cost))
    {
      if id !in channels {
        return Some(NoChannel);
      }
      var state := channels[id];
      if state.settled {
        return None;
      }
      if cost > state.client {
        return Some(CostExceedsBalance);
      }
      state := state.(client := state.client - cost);
      state := state.(node := WrapU64(state.node + cost));
      state := state.(sequence := state.sequence + 1);
      state := state.(settled := true);
      channels := channels[id := state];
      totalSettled := WrapU64(totalSettled + cost);
      return None;
    }

    method RefundFunds(id: RequestId) returns (error: Option<Error>)
      modifies this
      ensures (View(), error) == Step(old(View()), Refund(id))
    {
      if id !in channels {
        return Some(NoChannel);
      }
      if channels[id].settled {
        return None;
      }
      channels := channels[id := channels[id].(settled := true)];
      return None;
    }
  }
}
