/**
 * The on-chain escrow program: one program-owned account per request, locked by a client,
 * then released to the node or refunded. Account constraints are checked before the
 * handlers' own conditions, and a failing call changes nothing.
 */
module Escrow {
  import opened Bytes
  import opened Machine
  import opened Options
  import opened Sums

  type Pubkey = Bytes32
  type RequestId = string
  datatype Status = Locked | Released | Refunded

  datatype Account = Account(
    client: Pubkey,
    node: Pubkey,
    amount: nat,
    status: Status,
    createdAt: int,
    expiresAt: int,
    proofHash: Bytes32,
    lamports: nat)

  datatype Error =
    | AccountInUse
    | AccountNotInitialized
    | InsufficientFunds
    | Unauthorized
    | EscrowNotLocked
    | EscrowExpired
    | EscrowNotExpired

  /** The escrow accounts, the wallets' lamports and the global counters. */
  datatype State = State(
    escrows: map<RequestId, Account>,
    wallets: map<Pubkey, nat>,
    totalJobs: nat,
    totalVolume: nat)

  /** Rent of an escrow account and the default timeout: fixed by the deployment. */
  datatype Config = Config(rent: nat, timeout: int)

  datatype Call =
    | Lock(client: Pubkey, node: Pubkey, id: RequestId, amount: nat, timeout: int)
    | Release(signer: Pubkey, id: RequestId, proofHash: Bytes32)
    | Refund(signer: Pubkey, id: RequestId)

  function Balance(s: State, k: Pubkey): nat {
    if k in s.wallets then s.wallets[k] else 0
  }

  // ----- The handlers as functions -----

  function LockSpec(s: State, c: Config, now: int, call: Call): (State, Option<Error>)
    requires call.Lock?
  {
    if call.id in s.escrows then (s, Some(AccountInUse))
    else if Balance(s, call.client) < c.rent + call.amount then (s, Some(InsufficientFunds))
    else
      var timeout := if call.timeout > 0 then call.timeout else c.timeout;
      var account := Account(call.client, call.node, call.amount, Locked, now, WrapI64(now + timeout),
                             seq(32, _ => 0), c.rent + call.amount);
      (s.(escrows := s.escrows[call.id := account],
          wallets := s.wallets[call.client := Balance(s, call.client) - c.rent - call.amount]),
       None)
  }

  /** Moves an escrow's amount to a wallet. */
  function PayOut(s: State, id: RequestId, to: Pubkey, account: Account): State
    requires id in s.escrows
  {
    s.(escrows := s.escrows[id := account.(lamports := WrapU64(s.escrows[id].lamports - account.amount))],
       wallets := s.wallets[to := WrapU64(Balance(s, to) + account.amount)])
  }

  function ReleaseSpec(s: State, now: int, call: Call): (State, Option<Error>)
    requires call.Release?
  {
    if call.id !in s.escrows then (s, Some(AccountNotInitialized))
    else
      var e := s.escrows[call.id];
      if e.node != call.signer then (s, Some(Unauthorized))
      else if e.status != Locked then (s, Some(EscrowNotLocked))
      else if now > e.expiresAt then (s, Some(EscrowExpired))
      else
        var paid := PayOut(s, call.id, call.signer, e.(status := Released, proofHash := call.proofHash));
        (paid.(totalJobs := SaturatingAdd(s.totalJobs, 1), totalVolume := SaturatingAdd(s.totalVolume, e.amount)),
         None)
  }

  function RefundSpec(s: State, now: int, call: Call): (State, Option<Error>)
    requires call.Refund?
  {
    if call.id !in s.escrows then (s, Some(AccountNotInitialized))
    else
      var e := s.escrows[call.id];
      if e.client != call.signer then (s, Some(Unauthorized))
      else if e.status != Locked then (s, Some(EscrowNotLocked))
      else if now <= e.expiresAt then (s, Some(EscrowNotExpired))
      else (PayOut(s, call.id, call.signer, e.(status := Refunded)), None)
  }

  function Step(s: State, c: Config, now: int, call: Call): (State, Option<Error>) {
    match call
    case Lock(_, _, _, _, _) => LockSpec(s, c, now, call)
    case Release(_, _, _) => ReleaseSpec(s, now, call)
    case Refund(_, _) => RefundSpec(s, now, call)
  }

  /** A run: calls with the clock that each of them sees. */
  type Trace = seq<(int, Call)>

  function Run(s: State, c: Config, calls: Trace): State {
    if calls == [] then s
    else
      var front := calls[..|calls| - 1];
      var (now, call) := calls[|calls| - 1];
      Step(Run(s, c, front), c, now, call).0
  }

  // ----- The invariant -----

  function Lamports(a: Account): nat { a.lamports }
  function Same(n: nat): nat { n }
  function ReleasedOne(a: Account): nat { if a.status == Released then 1 else 0 }
  function ReleasedAmount(a: Account): nat { if a.status == Released then a.amount else 0 }

  ghost function Total(s: State): nat {
    Sum(s.wallets, Same) + Sum(s.escrows, Lamports)
  }

  /** A locked escrow holds its amount on top of the rent, a settled one exactly the rent. */
  predicate HoldsItsDue(a: Account, c: Config) {
    a.lamports == c.rent + if a.status == Locked then a.amount else 0
  }

  ghost predicate Inv(s: State, c: Config) {
    && Total(s) < U64
    && (forall id :: id in s.escrows ==> HoldsItsDue(s.escrows[id], c))
    && s.totalJobs == Saturate(Sum(s.escrows, ReleasedOne))
    && s.totalVolume == Saturate(Sum(s.escrows, ReleasedAmount))
  }

  lemma InitialInv(c: Config, wallets: map<Pubkey, nat>)
    requires Sum(wallets, Same) < U64
    ensures Inv(State(map[], wallets, 0, 0), c)
  {
  }

  /** A payout leaves exactly the rent and does not wrap on either side. */
  lemma PayOutExact(s: State, c: Config, id: RequestId, to: Pubkey, account: Account)
    requires Inv(s, c) && id in s.escrows && s.escrows[id].status == Locked
    requires account.amount == s.escrows[id].amount
    ensures PayOut(s, id, to, account) == s.(
      escrows := s.escrows[id := account.(lamports := c.rent)],
      wallets := s.wallets[to := Balance(s, to) + account.amount])
  {
    var e := s.escrows[id];
    assert HoldsItsDue(e, c);
    SumBounds(s.escrows, Lamports, id);
    if to in s.wallets {
      SumBounds(s.wallets, Same, to);
    }
    assert Lamports(e) == e.lamports;
    assert Balance(s, to) + e.amount < U64;
  }

  lemma PayOutConserves(s: State, c: Config, id: RequestId, to: Pubkey, account: Account)
    requires Inv(s, c) && id in s.escrows && s.escrows[id].status == Locked
    requires account.amount == s.escrows[id].amount
    ensures Total(PayOut(s, id, to, account)) == Total(s)
  {
    PayOutExact(s, c, id, to, account);
    assert HoldsItsDue(s.escrows[id], c);
    SumUpdate(s.escrows, Lamports, id, account.(lamports := c.rent));
    SumUpdate<Pubkey, nat>(s.wallets, Same, to, Balance(s, to) + account.amount);
  }

  lemma StepConserves(s: State, c: Config, now: int, call: Call)
    requires Inv(s, c)
    ensures Total(Step(s, c, now, call).0) == Total(s)
  {
    var (t, r) := Step(s, c, now, call);
    if r.None? {
      match call
      case Lock(client, node, id, amount, timeout) =>
        SumUpdate(s.escrows, Lamports, id, t.escrows[id]);
        SumUpdate<Pubkey, nat>(s.wallets, Same, client, t.wallets[client]);
      case Release(signer, id, proofHash) =>
        PayOutConserves(s, c, id, signer, s.escrows[id].(status := Released, proofHash := proofHash));
      case Refund(signer, id) =>
        PayOutConserves(s, c, id, signer, s.escrows[id].(status := Refunded));
    }
  }

  /** How an update of one escrow moves a counter. */
  lemma CounterMoves(s: State, t: State, id: RequestId, f: Account -> nat)
    requires id in t.escrows && t.escrows == s.escrows[id := t.escrows[id]]
    ensures Sum(t.escrows, f) == Sum(s.escrows, f) - (if id in s.escrows then f(s.escrows[id]) else 0) + f(t.escrows[id])
  {
    SumUpdate(s.escrows, f, id, t.escrows[id]);
  }

  lemma StepKeepsJobs(s: State, c: Config, now: int, call: Call)
    requires s.totalJobs == Saturate(Sum(s.escrows, ReleasedOne))
    ensures var t := Step(s, c, now, call).0; t.totalJobs == Saturate(Sum(t.escrows, ReleasedOne))
  {
    var (t, r) := Step(s, c, now, call);
    if r.None? {
      CounterMoves(s, t, call.id, ReleasedOne);
    }
  }

  lemma StepKeepsVolume(s: State, c: Config, now: int, call: Call)
    requires s.totalVolume == Saturate(Sum(s.escrows, ReleasedAmount))
    ensures var t := Step(s, c, now, call).0; t.totalVolume == Saturate(Sum(t.escrows, ReleasedAmount))
  {
    var (t, r) := Step(s, c, now, call);
    if r.None? {
      CounterMoves(s, t, call.id, ReleasedAmount);
    }
  }

  lemma StepKeepsDues(s: State, c: Config, now: int, call: Call)
    requires Inv(s, c)
    ensures var t := Step(s, c, now, call).0;
      forall id :: id in t.escrows ==> HoldsItsDue(t.escrows[id], c)
  {
    if Step(s, c, now, call).1.None? {
      match call
      case Lock(client, node, id, amount, timeout) =>
      case Release(signer, id, proofHash) =>
        PayOutExact(s, c, id, signer, s.escrows[id].(status := Released, proofHash := proofHash));
      case Refund(signer, id) =>
        PayOutExact(s, c, id, signer, s.escrows[id].(status := Refunded));
    }
  }

  lemma StepKeepsInv(s: State, c: Config, now: int, call: Call)
    requires Inv(s, c)
    ensures Inv(Step(s, c, now, call).0, c)
    ensures Total(Step(s, c, now, call).0) == Total(s)
  {
    StepConserves(s, c, now, call);
    StepKeepsJobs(s, c, now, call);
    StepKeepsVolume(s, c, now, call);
    StepKeepsDues(s, c, now, call);
  }

  /**
   * Over every run no lamport appears or disappears, no 64-bit balance wraps, each escrow
   * holds its amount while locked and exactly its rent afterwards, and the counters are the
   * saturated count and volume of the released escrows.
   */
  lemma {:induction false} RunConserves(s: State, c: Config, calls: Trace)
    requires Inv(s, c)
    ensures Inv(Run(s, c, calls), c)
    ensures Total(Run(s, c, calls)) == Total(s)
  {
    if calls != [] {
      var front := calls[..|calls| - 1];
      var (now, call) := calls[|calls| - 1];
      RunConserves(s, c, front);
      StepKeepsInv(Run(s, c, front), c, now, call);
    }
  }

  // ----- One payout -----

  /** The number of calls of the run that paid an escrow out. */
  function Payouts(s: State, c: Config, calls: Trace, id: RequestId): nat {
    if calls == [] then 0
    else
      var front := calls[..|calls| - 1];
      var (now, call) := calls[|calls| - 1];
      Payouts(s, c, front, id)
      + if call.id == id && !call.Lock? && Step(Run(s, c, front), c, now, call).1.None? then 1 else 0
  }

  predicate Settled(s: State, id: RequestId) {
    id in s.escrows && s.escrows[id].status != Locked
  }

  lemma {:induction false} PaidOutOnce(s: State, c: Config, calls: Trace, id: RequestId)
    requires !Settled(s, id)
    ensures Payouts(s, c, calls, id) == if Settled(Run(s, c, calls), id) then 1 else 0
  {
    if calls != [] {
      PaidOutOnce(s, c, calls[..|calls| - 1], id);
    }
  }

  /** A settled escrow never changes again, whatever is called. */
  lemma {:induction false} SettledForGood(s: State, c: Config, calls: Trace, id: RequestId)
    requires Settled(s, id)
    ensures Settled(Run(s, c, calls), id) && Run(s, c, calls).escrows[id] == s.escrows[id]
  {
    if calls != [] {
      SettledForGood(s, c, calls[..|calls| - 1], id);
    }
  }

  /** What a payout does: the escrow's amount goes to the one entitled to it, and nowhere else. */
  lemma PayoutPaysItsAmount(s: State, c: Config, now: int, call: Call)
    requires Inv(s, c) && !call.Lock? && Step(s, c, now, call).1.None?
    ensures call.id in s.escrows
    ensures var (t, e) := (Step(s, c, now, call).0, s.escrows[call.id]);
      var payee := if call.Release? then e.node else e.client;
      && e.status == Locked && call.signer == payee
      && t.escrows.Keys == s.escrows.Keys
      && t.escrows[call.id].lamports == c.rent && t.escrows[call.id].amount == e.amount
      && Balance(t, payee) == Balance(s, payee) + e.amount
      && (forall k :: k != payee ==> Balance(t, k) == Balance(s, k))
      && (forall id :: id in s.escrows && id != call.id ==> t.escrows[id] == s.escrows[id])
  {
    var e := s.escrows[call.id];
    if call.Release? {
      PayOutExact(s, c, call.id, call.signer, e.(status := Released, proofHash := call.proofHash));
    } else {
      PayOutExact(s, c, call.id, call.signer, e.(status := Refunded));
    }
  }

  /**
   * Exactly when an escrow is paid out: while it is locked, to its node up to the expiry, and
   * to its client after it. A call that fails changes nothing.
   */
  lemma PaidOutIff(s: State, c: Config, now: int, call: Call)
    requires !call.Lock?
    ensures Step(s, c, now, call).1.None? <==>
      && call.id in s.escrows && s.escrows[call.id].status == Locked
      && call.signer == (if call.Release? then s.escrows[call.id].node else s.escrows[call.id].client)
      && (call.Release? <==> now <= s.escrows[call.id].expiresAt)
    ensures Step(s, c, now, call).1.Some? ==> Step(s, c, now, call).0 == s
  {
  }

  // ----- Time -----

  /** While an escrow is locked, exactly one of release (by its node) and refund (by its client) succeeds. */
  lemma ReleaseXorRefund(s: State, c: Config, now: int, id: RequestId, proofHash: Bytes32)
    requires id in s.escrows && s.escrows[id].status == Locked
    ensures var e := s.escrows[id];
      Step(s, c, now, Release(e.node, id, proofHash)).1.None? <==> !Step(s, c, now, Refund(e.client, id)).1.None?
  {
  }

  predicate ClockFrom(calls: Trace, start: int) {
    forall i :: 0 <= i < |calls| ==> calls[i].0 >= start
  }

  /** Once a refund is possible, and as long as the clock does not go back, no release ever succeeds. */
  lemma {:induction false} ExpiredStaysExpired(s: State, c: Config, calls: Trace, id: RequestId, start: int)
    requires id in s.escrows && s.escrows[id].status == Locked && start > s.escrows[id].expiresAt
    requires ClockFrom(calls, start)
    ensures var t := Run(s, c, calls);
      && id in t.escrows && t.escrows[id].status != Released
      && (t.escrows[id].status == Locked ==> t.escrows[id] == s.escrows[id])
  {
    if calls != [] {
      ExpiredStaysExpired(s, c, calls[..|calls| - 1], id, start);
    }
  }

  // ----- Where an escrow comes from -----

  predicate IsItsLock(call: (int, Call), c: Config, id: RequestId, e: Account) {
    && call.1.Lock? && call.1.id == id
    && call.1.client == e.client && call.1.node == e.node && call.1.amount == e.amount
    && e.createdAt == call.0
    && (e.status != Released ==> forall i :: 0 <= i < 32 ==> e.proofHash[i] == 0)
    && e.expiresAt == WrapI64(call.0 + if call.1.timeout > 0 then call.1.timeout else c.timeout)
  }

  /** The call that put the escrow into its status: signed by its payee, and on the right side of the expiry. */
  predicate IsItsSettlement(call: (int, Call), id: RequestId, e: Account) {
    match e.status
    case Locked => false
    case Released => call.1 == Release(e.node, id, e.proofHash) && call.0 <= e.expiresAt
    case Refunded => call.1 == Refund(e.client, id) && call.0 > e.expiresAt
  }

  ghost predicate Explained(calls: Trace, c: Config, id: RequestId, e: Account) {
    exists i :: 0 <= i < |calls| && IsItsLock(calls[i], c, id, e)
      && (e.status != Locked ==> exists j :: i < j < |calls| && IsItsSettlement(calls[j], id, e))
  }

  lemma ExplainedLater(calls: Trace, call: (int, Call), c: Config, id: RequestId, e: Account)
    requires Explained(calls, c, id, e)
    ensures Explained(calls + [call], c, id, e)
  {
    var longer := calls + [call];
    var i :| 0 <= i < |calls| && IsItsLock(calls[i], c, id, e)
      && (e.status != Locked ==> exists j :: i < j < |calls| && IsItsSettlement(calls[j], id, e));
    assert IsItsLock(longer[i], c, id, e);
    if e.status != Locked {
      var j :| i < j < |calls| && IsItsSettlement(calls[j], id, e);
      assert IsItsSettlement(longer[j], id, e);
    }
  }

  lemma ExplainedNow(calls: Trace, call: (int, Call), c: Config, id: RequestId, e: Account, f: Account)
    requires Explained(calls, c, id, e) && e.status == Locked
    requires IsItsSettlement(call, id, f)
    requires f.client == e.client && f.node == e.node && f.amount == e.amount
    requires f.createdAt == e.createdAt && f.expiresAt == e.expiresAt
    requires f.status == Released || f.proofHash == e.proofHash
    ensures Explained(calls + [call], c, id, f)
  {
    var longer := calls + [call];
    var i :| 0 <= i < |calls| && IsItsLock(calls[i], c, id, e);
    assert IsItsLock(longer[i], c, id, f);
    assert IsItsSettlement(longer[|calls|], id, f);
  }

  lemma ExplainedFresh(calls: Trace, call: (int, Call), c: Config, id: RequestId, e: Account)
    requires IsItsLock(call, c, id, e) && e.status == Locked
    ensures Explained(calls + [call], c, id, e)
  {
    assert IsItsLock((calls + [call])[|calls|], c, id, e);
  }

  lemma StepExplains(s: State, c: Config, calls: Trace, call: (int, Call), id: RequestId)
    requires id in s.escrows ==> Explained(calls, c, id, s.escrows[id])
    ensures var t := Step(s, c, call.0, call.1).0;
      id in t.escrows ==> Explained(calls + [call], c, id, t.escrows[id])
  {
    var (t, r) := Step(s, c, call.0, call.1);
    if r.None? && call.1.id == id {
      if call.1.Lock? {
        ExplainedFresh(calls, call, c, id, t.escrows[id]);
      } else {
        ExplainedNow(calls, call, c, id, s.escrows[id], t.escrows[id]);
      }
    } else if id in s.escrows {
      assert t.escrows[id] == s.escrows[id];
      ExplainedLater(calls, call, c, id, s.escrows[id]);
    }
  }

  /**
   * Every escrow of every run from an empty program is the work of calls in it: a lock with its
   * client, node, amount and times; if it is released, a later release by that node in time
   * with the stored proof hash; if it is refunded, a later refund by that client after expiry.
   */
  lemma {:induction false} EveryEscrowIsExplained(c: Config, wallets: map<Pubkey, nat>, calls: Trace, id: RequestId)
    ensures var s := Run(State(map[], wallets, 0, 0), c, calls);
      id in s.escrows ==> Explained(calls, c, id, s.escrows[id])
    decreases |calls|
  {
    if calls != [] {
      var front, last := calls[..|calls| - 1], calls[|calls| - 1];
      var s := Run(State(map[], wallets, 0, 0), c, front);
      EveryEscrowIsExplained(c, wallets, front, id);
      assert calls == front + [last];
      StepExplains(s, c, front, last, id);
    }
  }

  /** What a lock costs, and that it touches nobody else. */
  lemma LockPaysIn(s: State, c: Config, now: int, call: Call)
    requires call.Lock?
    ensures Step(s, c, now, call).1.None? <==>
      call.id !in s.escrows && Balance(s, call.client) >= c.rent + call.amount
    ensures Step(s, c, now, call).1.None? ==>
      var t := Step(s, c, now, call).0;
      && Balance(t, call.client) == Balance(s, call.client) - c.rent - call.amount
      && (forall k :: k != call.client ==> Balance(t, k) == Balance(s, k))
      && t.escrows == s.escrows[call.id := t.escrows[call.id]]
      && t.escrows[call.id].lamports == c.rent + call.amount
    ensures Step(s, c, now, call).1.Some? ==> Step(s, c, now, call).0 == s
  {
  }

  /** The seconds that a lock asks for, or else the deployment's default, whatever its sign. */
  function TimeoutOf(c: Config, call: Call): int
    requires call.Lock?
  {
    if call.timeout > 0 then call.timeout else c.timeout
  }

  predicate IsI64(n: int) {
    -I64 <= n < I64
  }

  /**
   * Exactly when a new escrow can be released at once, for every clock, lock and deployment:
   * the timeout is not negative and the expiry does not run past 2^63, or it is negative and
   * the expiry runs past -2^63. The second needs a clock before 1970. Where overflow is
   * checked, the lock itself fails instead of wrapping around.
   */
  lemma FreshLockIsReleasableIff(s: State, c: Config, now: int, call: Call, proofHash: Bytes32)
    requires call.Lock? && Step(s, c, now, call).1.None?
    requires IsI64(now) && IsI64(call.timeout) && IsI64(c.timeout)
    ensures var t := Step(s, c, now, call).0;
      Step(t, c, now, Release(call.node, call.id, proofHash)).1.None?
      <==> if TimeoutOf(c, call) >= 0 then now + TimeoutOf(c, call) < I64 else now + TimeoutOf(c, call) < -I64
    ensures var t := Step(s, c, now, call).0; now >= 0 ==>
      (Step(t, c, now, Release(call.node, call.id, proofHash)).1.None?
       <==> TimeoutOf(c, call) >= 0 && now + TimeoutOf(c, call) < I64)
  {
  }

  /** A deployment with a negative default: a lock that relies on it is expired at once, and can be refunded. */
  lemma NegativeDefaultExpires(s: State, rent: nat, now: int, call: Call, proofHash: Bytes32)
    requires call.Lock? && call.timeout <= 0 && 0 <= now < I64
    requires Step(s, Config(rent, -1), now, call).1.None?
    ensures var c := Config(rent, -1); var t := Step(s, c, now, call).0;
      && Step(t, c, now, Release(call.node, call.id, proofHash)).1 == Some(EscrowExpired)
      && Step(t, c, now, Refund(call.client, call.id)).1.None?
  {
  }

  /** And the longest timeout: any lock with it from 1970 on is expired at once as well. */
  lemma LongestTimeoutExpires(s: State, c: Config, now: int, call: Call, proofHash: Bytes32)
    requires call.Lock? && call.timeout == I64 - 1 && 0 < now < I64
    requires Step(s, c, now, call).1.None?
    ensures var t := Step(s, c, now, call).0;
      && Step(t, c, now, Release(call.node, call.id, proofHash)).1 == Some(EscrowExpired)
      && Step(t, c, now, Refund(call.client, call.id)).1.None?
  {
  }

  // ----- The program -----

  class Program {
    const config: Config
    var escrows: map<RequestId, Account>
    var wallets: map<Pubkey, nat>
    var totalJobs: nat
    var totalVolume: nat

    ghost function View(): State
      reads this
    {
      State(escrows, wallets, totalJobs, totalVolume)
    }

    constructor Initialize(c: Config, initial: map<Pubkey, nat>)
      ensures config == c && View() == State(map[], initial, 0, 0)
    {
      config := c;
      escrows, wallets := map[], initial;
      totalJobs, totalVolume := 0, 0;
    }

    method LamportsOf(k: Pubkey) returns (n: nat)
      ensures n == Balance(View(), k)
    {
      return if k in wallets then wallets[k] else 0;
    }

    method LockEscrow(now: int, client: Pubkey, node: Pubkey, id: RequestId, amount: nat, timeoutSecs: int)
      returns (error: Option<Error>)
      modifies this
      ensures (View(), error) == Step(old(View()), config, now, Lock(client, node, id, amount, timeoutSecs))
    {
      if id in escrows {
        return Some(AccountInUse);
      }
      var funds := LamportsOf(client);
      if funds < config.rent + amount {
        return Some(InsufficientFunds);
      }
      wallets := wallets[client := funds - config.rent];
      var timeout := if timeoutSecs > 0 then timeoutSecs else config.timeout;
      var escrow := Account(client, node, amount, Locked, now, WrapI64(now + timeout), seq(32, _ => 0), config.rent);
      wallets := wallets[client := wallets[client] - amount];
      escrows := escrows[id := escrow.(lamports := escrow.lamports + amount)];
      assert wallets == old(wallets)[client := funds - config.rent - amount];
      return None;
    }

    method ReleaseEscrow(now: int, signer: Pubkey, id: RequestId, proofHash: Bytes32) returns (error: Option<Error>)
      modifies this
      ensures (View(), error) == Step(old(View()), config, now, Release(signer, id, proofHash))
    {
      if id !in escrows {
        return Some(AccountNotInitialized);
      }
      var escrow := escrows[id];
      if escrow.node != signer {
        return Some(Unauthorized);
      }
      if escrow.status != Locked {
        return Some(EscrowNotLocked);
      }
      if now > escrow.expiresAt {
        return Some(EscrowExpired);
      }
      var amount := escrow.amount;
      var funds := LamportsOf(signer);
      escrow := escrow.(status := Released);
      escrow := escrow.(proofHash := proofHash);
      escrow := escrow.(lamports := WrapU64(escrow.lamports - amount));
      escrows := escrows[id := escrow];
      wallets := wallets[signer := WrapU64(funds + amount)];
      totalJobs := SaturatingAdd(totalJobs, 1);
      totalVolume := SaturatingAdd(totalVolume, amount);
      return None;
    }

    method RefundEscrow(now: int, signer: Pubkey, id: RequestId) returns (error: Option<Error>)
      modifies this
      ensures (View(), error) == Step(old(View()), config, now, Refund(signer, id))
    {
      if id !in escrows {
        return Some(AccountNotInitialized);
      }
      var escrow := escrows[id];
      if escrow.client != signer {
        return Some(Unauthorized);
      }
      if escrow.status != Locked {
        return Some(EscrowNotLocked);
      }
      if now <= escrow.expiresAt {
        return Some(EscrowNotExpired);
      }
      var amount := escrow.amount;
      var funds := LamportsOf(signer);
      escrow := escrow.(status := Refunded);
      escrow := escrow.(lamports := WrapU64(escrow.lamports - amount));
      escrows := escrows[id := escrow];
      wallets := wallets[signer := WrapU64(funds + amount)];
      return None;
    }
  }
}
