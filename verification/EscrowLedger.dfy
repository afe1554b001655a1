/** The wallets over whole runs of the escrow program: every balance follows from the escrows. */
module EscrowLedger {
  import opened Escrow
  import opened Machine
  import opened Sums

  /** What a key has put into an escrow: rent and amount of the ones it locked. */
  function PaidIn(c: Config, k: Pubkey): Account -> nat {
    (a: Account) => if a.client == k then c.rent + a.amount else 0
  }

  /** What a key has got out of an escrow: a release to it as the node, a refund to it as the client. */
  function PaidOut(k: Pubkey): Account -> nat {
    (a: Account) =>
      match a.status
      case Locked => 0
      case Released => if a.node == k then a.amount else 0
      case Refunded => if a.client == k then a.amount else 0
  }

  ghost predicate Balanced(s: State, c: Config, k: Pubkey, initial: nat) {
    Balance(s, k) + Sum(s.escrows, PaidIn(c, k)) == initial + Sum(s.escrows, PaidOut(k))
  }

  lemma LockBalances(s: State, c: Config, now: int, call: Call, k: Pubkey, initial: nat)
    requires call.Lock? && Step(s, c, now, call).1.None? && Balanced(s, c, k, initial)
    ensures Balanced(Step(s, c, now, call).0, c, k, initial)
  {
    var t := Step(s, c, now, call).0;
    LockPaysIn(s, c, now, call);
    CounterMoves(s, t, call.id, PaidIn(c, k));
    CounterMoves(s, t, call.id, PaidOut(k));
    assert k != call.client ==> Balance(t, k) == Balance(s, k);
  }

  /** A payout changes the status of its escrow, and neither parties nor amount. */
  lemma PayoutKeepsTerms(s: State, c: Config, now: int, call: Call)
    requires !call.Lock? && Step(s, c, now, call).1.None?
    ensures call.id in s.escrows && call.id in Step(s, c, now, call).0.escrows
    ensures var (e, f) := (s.escrows[call.id], Step(s, c, now, call).0.escrows[call.id]);
      && f.client == e.client && f.node == e.node && f.amount == e.amount
      && e.status == Locked && f.status == (if call.Release? then Released else Refunded)
    ensures Step(s, c, now, call).0.escrows == s.escrows[call.id := Step(s, c, now, call).0.escrows[call.id]]
  {
  }

  lemma PayoutBalances(s: State, c: Config, now: int, call: Call, k: Pubkey, initial: nat)
    requires Inv(s, c) && !call.Lock? && Step(s, c, now, call).1.None? && Balanced(s, c, k, initial)
    ensures Balanced(Step(s, c, now, call).0, c, k, initial)
  {
    var t := Step(s, c, now, call).0;
    PayoutPaysItsAmount(s, c, now, call);
    PayoutKeepsTerms(s, c, now, call);
    CounterMoves(s, t, call.id, PaidIn(c, k));
    CounterMoves(s, t, call.id, PaidOut(k));
    var payee := if call.Release? then s.escrows[call.id].node else s.escrows[call.id].client;
    assert k != payee ==> Balance(t, k) == Balance(s, k);
  }

  lemma StepBalances(s: State, c: Config, now: int, call: Call, k: Pubkey, initial: nat)
    requires Inv(s, c) && Balanced(s, c, k, initial)
    ensures Balanced(Step(s, c, now, call).0, c, k, initial)
  {
    if Step(s, c, now, call).1.None? {
      if call.Lock? {
        LockBalances(s, c, now, call, k, initial);
      } else {
        PayoutBalances(s, c, now, call, k, initial);
      }
    }
  }

  /**
   * After every run from an empty program, each key has what it began with, less rent and
   * amount of the escrows it locked, plus the amounts released to it and refunded to it.
   */
  lemma {:induction false} RunBalances(c: Config, wallets: map<Pubkey, nat>, calls: Trace, k: Pubkey)
    requires Sum(wallets, Same) < U64
    ensures var start := State(map[], wallets, 0, 0);
      Balanced(Run(start, c, calls), c, k, Balance(start, k))
    decreases |calls|
  {
    var start := State(map[], wallets, 0, 0);
    if calls != [] {
      var front, last := calls[..|calls| - 1], calls[|calls| - 1];
      RunBalances(c, wallets, front, k);
      InitialInv(c, wallets);
      RunConserves(start, c, front);
      StepBalances(Run(start, c, front), c, last.0, last.1, k, Balance(start, k));
    }
  }
}
