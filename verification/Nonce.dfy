/** Replay protection: request ids with an expiry, pruned on every call. */
module Nonce {
  import opened Machine

  type Id = nat

  /** Expiry times in milliseconds. */
  type Store = map<Id, Uint64>

  datatype Call = Call(id: Id, now: Uint64, ttlSecs: Uint64)

  /** The multiplication saturates, the addition wraps around. */
  function Expiry(c: Call): Uint64 {
    WrapU64(c.now + SaturatingMul(c.ttlSecs, 1000))
  }

  function Retained(store: Store, now: Uint64): Store {
    map id | id in store && store[id] > now :: store[id]
  }

  predicate IsReplay(store: Store, c: Call) {
    c.id in Retained(store, c.now)
  }

  function After(store: Store, c: Call): Store {
    if IsReplay(store, c) then Retained(store, c.now) else Retained(store, c.now)[c.id := Expiry(c)]
  }

  class InMemoryNonceStore {
    var entries: Store

    constructor ()
      ensures entries == map[]
    {
      entries := map[];
    }

    method CheckAndSet(id: Id, now: Uint64, ttlSecs: Uint64) returns (replay: bool)
      modifies this
      ensures var c := Call(id, now, ttlSecs);
        replay == IsReplay(old(entries), c) && entries == After(old(entries), c)
    {
      var expiry := WrapU64(now + SaturatingMul(ttlSecs, 1000));
      entries := map k | k in entries && entries[k] > now :: entries[k];
      if id in entries {
        return true;
      }
      entries := entries[id := expiry];
      return false;
    }
  }

  // ----- Whole histories -----

  /** The store after the first `n` calls. */
  function Exec(calls: seq<Call>, n: nat): Store
    requires n <= |calls|
  {
    if n == 0 then map[] else After(Exec(calls, n - 1), calls[n - 1])
  }

  /** Call `i` is answered as a replay. */
  predicate Replayed(calls: seq<Call>, i: nat)
    requires i < |calls|
  {
    IsReplay(Exec(calls, i), calls[i])
  }

  /** Call `j` was accepted, and no clock read by the calls after it and before `n` reached its expiry. */
  predicate Remembered(calls: seq<Call>, j: nat, n: nat)
    requires j < n <= |calls|
  {
    !Replayed(calls, j) && forall k :: j < k < n ==> calls[k].now < Expiry(calls[j])
  }

  lemma {:induction false} RememberedIsStored(calls: seq<Call>, j: nat, n: nat)
    requires j < n <= |calls| && Remembered(calls, j, n)
    ensures calls[j].id in Exec(calls, n) && Exec(calls, n)[calls[j].id] == Expiry(calls[j])
    decreases n
  {
    if j < n - 1 {
      RememberedIsStored(calls, j, n - 1);
      assert calls[n - 1].now < Expiry(calls[j]);
    }
  }

  lemma {:induction false} StoredIsRemembered(calls: seq<Call>, n: nat, id: Id) returns (j: nat)
    requires n <= |calls| && id in Exec(calls, n)
    ensures j < n && calls[j].id == id && Remembered(calls, j, n) && Exec(calls, n)[id] == Expiry(calls[j])
    decreases n
  {
    if calls[n - 1].id == id && !Replayed(calls, n - 1) {
      j := n - 1;
    } else {
      j := StoredIsRemembered(calls, n - 1, id);
    }
  }

  /**
   * For any clock readings: a call is a replay exactly when an accepted call for the same id
   * came before it, and neither this call nor any in between read a clock at or past that
   * call's expiry.
   */
  lemma ReplayedIff(calls: seq<Call>, i: nat)
    requires i < |calls|
    ensures Replayed(calls, i) <==>
      exists j :: 0 <= j < i && calls[j].id == calls[i].id && Remembered(calls, j, i + 1)
  {
    if Replayed(calls, i) {
      var j := StoredIsRemembered(calls, i, calls[i].id);
      assert Remembered(calls, j, i + 1);
    }
    if j :| 0 <= j < i && calls[j].id == calls[i].id && Remembered(calls, j, i + 1) {
      assert Remembered(calls, j, i);
      RememberedIsStored(calls, j, i);
    }
  }

  predicate Monotone(calls: seq<Call>) {
    forall i, j :: 0 <= i <= j < |calls| ==> calls[i].now <= calls[j].now
  }

  /** With a monotone clock pruning is invisible: only this call's own time counts. */
  lemma ReplayedIffUnexpired(calls: seq<Call>, i: nat)
    requires i < |calls| && Monotone(calls)
    ensures Replayed(calls, i) <==>
      exists j :: 0 <= j < i && calls[j].id == calls[i].id && !Replayed(calls, j) && calls[i].now < Expiry(calls[j])
  {
    ReplayedIff(calls, i);
    if j :| 0 <= j < i && calls[j].id == calls[i].id && !Replayed(calls, j) && calls[i].now < Expiry(calls[j]) {
      assert Remembered(calls, j, i + 1);
    }
  }

  // ----- When an accepted id is remembered -----

  lemma ExpiryAheadIff(c: Call)
    ensures Expiry(c) > c.now <==> c.ttlSecs > 0 && c.now + SaturatingMul(c.ttlSecs, 1000) < U64
    ensures c.now > 0 && Expiry(c) > c.now ==> Expiry(c) == c.now + 1000 * c.ttlSecs
  {
    var life := SaturatingMul(c.ttlSecs, 1000);
    if c.now + life >= U64 {
      assert (c.now + life) % U64 == c.now + life - U64;
    }
  }

  lemma {:induction false} ExecOfLonger(calls: seq<Call>, more: seq<Call>, n: nat)
    requires n <= |calls|
    ensures Exec(calls + more, n) == Exec(calls, n)
    decreases n
  {
    if n > 0 {
      ExecOfLonger(calls, more, n - 1);
      assert (calls + more)[n - 1] == calls[n - 1];
    }
  }

  /** The last call of the history was accepted. */
  predicate EndsAccepted(calls: seq<Call>) {
    calls != [] && !Replayed(calls, |calls| - 1)
  }

  /** What the store answers to a call for the id that was accepted last. */
  lemma NextForLastAccepted(calls: seq<Call>, c: Call)
    requires EndsAccepted(calls) && c.id == calls[|calls| - 1].id
    ensures Replayed(calls + [c], |calls|) <==> c.now < Expiry(calls[|calls| - 1])
  {
    ExecOfLonger(calls, [c], |calls|);
    assert (calls + [c])[|calls|] == c;
    RememberedIsStored(calls, |calls| - 1, |calls|);
  }

  /**
   * Exactly when an accepted id is remembered at all: after any history, the same call made
   * again at once is a replay if and only if the lifetime is not zero and the expiry does not
   * run past 2^64.
   */
  lemma RememberedAtAllIff(calls: seq<Call>)
    requires EndsAccepted(calls)
    ensures var c := calls[|calls| - 1];
      Replayed(calls + [c], |calls|) <==> c.ttlSecs > 0 && c.now + SaturatingMul(c.ttlSecs, 1000) < U64
  {
    var c := calls[|calls| - 1];
    NextForLastAccepted(calls, c);
    ExpiryAheadIff(c);
  }

  /** Whatever follows in order, the id that was accepted last is refused for its whole lifetime. */
  ghost predicate Protected(calls: seq<Call>)
    requires calls != []
  {
    var c := calls[|calls| - 1];
    forall more: seq<Call> ::
      more != [] && Monotone(calls + more)
      && more[|more| - 1].id == c.id && more[|more| - 1].now < c.now + 1000 * c.ttlSecs
      ==> Replayed(calls + more, |calls + more| - 1)
  }

  lemma StaysReplayed(calls: seq<Call>, more: seq<Call>)
    requires EndsAccepted(calls) && more != [] && Monotone(calls + more)
    requires var c, last := calls[|calls| - 1], more[|more| - 1];
      last.id == c.id && last.now < c.now + 1000 * c.ttlSecs < U64
    ensures Replayed(calls + more, |calls + more| - 1)
  {
    var all, j := calls + more, |calls| - 1;
    ExecOfLonger(calls, more, j);
    assert all[j] == calls[j] && all[|all| - 1] == more[|more| - 1];
    assert Expiry(calls[j]) == calls[j].now + 1000 * calls[j].ttlSecs;
    ReplayedIffUnexpired(all, |all| - 1);
  }

  /** Past 2^64 the expiry has passed already, or is the last millisecond there is. */
  lemma ExpiryTooEarly(c: Call)
    requires c.now + 1000 * c.ttlSecs >= U64
    ensures Expiry(c) <= if c.now == 0 then U64 - 1 else c.now
  {
    ExpiryAheadIff(c);
  }

  /**
   * Exactly when the store protects an id for the lifetime it was accepted with: when that
   * lifetime ends before 2^64 milliseconds.
   */
  lemma ProtectedIff(calls: seq<Call>)
    requires EndsAccepted(calls) && Monotone(calls)
    ensures var c := calls[|calls| - 1]; Protected(calls) <==> c.now + 1000 * c.ttlSecs < U64
  {
    var c := calls[|calls| - 1];
    if c.now + 1000 * c.ttlSecs < U64 {
      forall more: seq<Call> | more != [] && Monotone(calls + more)
        && more[|more| - 1].id == c.id && more[|more| - 1].now < c.now + 1000 * c.ttlSecs
        ensures Replayed(calls + more, |calls + more| - 1)
      {
        StaysReplayed(calls, more);
      }
    } else {
      var late := Call(c.id, if c.now == 0 then U64 - 1 else c.now, 0);
      NextForLastAccepted(calls, late);
      ExpiryTooEarly(c);
      assert [late][|[late]| - 1] == late;
      assert |calls + [late]| - 1 == |calls|;
      assert Monotone(calls + [late]);
    }
  }

  /** What the store is for: an id is accepted again only after the lifetime it was accepted with. */
  lemma AcceptedAgainOnlyAfterLifetime(calls: seq<Call>, j: nat, i: nat)
    requires j < i < |calls| && Monotone(calls) && calls[j].id == calls[i].id
    requires !Replayed(calls, j) && !Replayed(calls, i)
    requires calls[j].now > 0 && calls[j].now + SaturatingMul(calls[j].ttlSecs, 1000) < U64
    ensures calls[i].now >= calls[j].now + 1000 * calls[j].ttlSecs
  {
    ReplayedIffUnexpired(calls, i);
    assert calls[i].now >= Expiry(calls[j]);
    if calls[j].ttlSecs > 0 {
      ExpiryAheadIff(calls[j]);
    }
  }

  /** Two calls for one id at one time with the longest lifetime: the second is accepted. */
  lemma LongestLifetimeForgets(id: Id, now: Uint64)
    requires now > 0
    ensures var c := Call(id, now, U64 - 1); !Replayed([c, c], 1)
  {
    var c := Call(id, now, U64 - 1);
    ExpiryAheadIff(c);
    ReplayedIff([c, c], 1);
  }
}
