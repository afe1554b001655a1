/** The peer registry: entries age out, and an eviction only removes what no lookup would show. */
module Peers {
  import opened Collections
  import opened Machine
  import opened Options

  datatype Capabilities = Capabilities(peerId: string, details: string)

  datatype Entry = Entry(caps: Capabilities, lastSeen: Uint64)

  type Store = map<string, Entry>

  /** `saturating_sub`: an entry from the future counts as just seen. */
  predicate IsLive(e: Entry, now: Uint64, ttl: Uint64) {
    SaturatingSub(now, e.lastSeen) < ttl
  }

  /** What lookups show: `get` selects from it, `all` lists it. */
  function Live(store: Store, now: Uint64, ttl: Uint64): map<string, Capabilities> {
    map id | id in store && IsLive(store[id], now, ttl) :: store[id].caps
  }

  function Evicted(store: Store, now: Uint64, ttl: Uint64): Store {
    map id | id in store && IsLive(store[id], now, ttl) :: store[id]
  }

  class InMemoryPeerStore {
    var entries: Store
    const ttl: Uint64

    constructor (ttl: Uint64)
      ensures entries == map[] && this.ttl == ttl
    {
      this.entries := map[];
      this.ttl := ttl;
    }

    method Upsert(caps: Capabilities, now: Uint64)
      modifies this
      ensures entries == old(entries)[caps.peerId := Entry(caps, now)]
    {
      entries := entries[caps.peerId := Entry(caps, now)];
    }

    method Get(peerId: string, now: Uint64) returns (found: Option<Capabilities>)
      ensures found.Some? <==> peerId in Live(entries, now, ttl)
      ensures found.Some? ==> found.value == Live(entries, now, ttl)[peerId]
    {
      if peerId in entries {
        var e := entries[peerId];
        if IsLive(e, now, ttl) {
          return Some(e.caps);
        }
      }
      return None;
    }

    /** Every live peer once, in the map's arbitrary order. */
    method All(now: Uint64) returns (ids: seq<string>, found: seq<Capabilities>)
      ensures |ids| == |found| && NoRepeats(ids)
      ensures forall id :: id in ids <==> id in Live(entries, now, ttl)
      ensures forall i :: 0 <= i < |ids| ==> ids[i] in Live(entries, now, ttl) && found[i] == Live(entries, now, ttl)[ids[i]]
    {
      ids, found := [], [];
      var rest := entries.Keys;
      while rest != {}
        invariant rest <= entries.Keys
        invariant |ids| == |found| && NoRepeats(ids)
        invariant forall id :: id in ids <==> id in Live(entries, now, ttl) && id !in rest
        invariant forall i :: 0 <= i < |ids| ==> ids[i] in entries && found[i] == entries[ids[i]].caps
        decreases |rest|
      {
        var id :| id in rest;
        if IsLive(entries[id], now, ttl) {
          ids, found := ids + [id], found + [entries[id].caps];
        }
        rest := rest - {id};
      }
    }

    method EvictExpired(now: Uint64)
      modifies this
      ensures entries == Evicted(old(entries), now, ttl)
    {
      entries := map id | id in entries && SaturatingSub(now, entries[id].lastSeen) < ttl :: entries[id];
    }
  }

  // ----- Whole histories -----

  datatype Op = Announce(caps: Capabilities, now: Uint64) | Evict(now: Uint64)

  function Apply(store: Store, op: Op, ttl: Uint64): Store {
    match op
    case Announce(caps, now) => store[caps.peerId := Entry(caps, now)]
    case Evict(now) => Evicted(store, now, ttl)
  }

  /** The store after the first `n` operations. */
  function Exec(ops: seq<Op>, n: nat, ttl: Uint64): Store
    requires n <= |ops|
  {
    if n == 0 then map[] else Apply(Exec(ops, n - 1, ttl), ops[n - 1], ttl)
  }

  /** The last announcement of a peer, evictions or not. */
  function LastAnnouncement(ops: seq<Op>, n: nat, peerId: string): Option<Entry>
    requires n <= |ops|
  {
    if n == 0 then None
    else if ops[n - 1].Announce? && ops[n - 1].caps.peerId == peerId then Some(Entry(ops[n - 1].caps, ops[n - 1].now))
    else LastAnnouncement(ops, n - 1, peerId)
  }

  /** No eviction read a clock later than `now`. */
  predicate EvictionsBy(ops: seq<Op>, n: nat, now: Uint64)
    requires n <= |ops|
  {
    forall i :: 0 <= i < n && ops[i].Evict? ==> ops[i].now <= now
  }

  lemma {:induction false} StoredIsLast(ops: seq<Op>, n: nat, ttl: Uint64, peerId: string, now: Uint64)
    requires n <= |ops| && EvictionsBy(ops, n, now)
    ensures var store, last := Exec(ops, n, ttl), LastAnnouncement(ops, n, peerId);
      && (peerId in store ==> last == Some(store[peerId]))
      && (last.Some? && IsLive(last.value, now, ttl) ==> peerId in store)
    decreases n
  {
    if n > 0 {
      StoredIsLast(ops, n - 1, ttl, peerId, now);
    }
  }

  /**
   * Lookups at or after the last eviction see exactly the peers whose last announcement is less
   * than the time to live ago, or in the future, with what it said: evictions never show.
   */
  lemma LookupsSeeLastAnnouncements(ops: seq<Op>, ttl: Uint64, peerId: string, now: Uint64)
    requires EvictionsBy(ops, |ops|, now)
    ensures var live, last := Live(Exec(ops, |ops|, ttl), now, ttl), LastAnnouncement(ops, |ops|, peerId);
      && (peerId in live <==> last.Some? && ttl > 0 && now < last.value.lastSeen + ttl)
      && (peerId in live ==> live[peerId] == last.value.caps)
  {
    StoredIsLast(ops, |ops|, ttl, peerId, now);
  }

  function WithoutEvictions(ops: seq<Op>, n: nat): (kept: seq<Op>)
    requires n <= |ops|
    ensures |kept| <= n
  {
    if n == 0 then []
    else if ops[n - 1].Evict? then WithoutEvictions(ops, n - 1)
    else WithoutEvictions(ops, n - 1) + [ops[n - 1]]
  }

  lemma {:induction false} AnnouncementsExtend(ops: seq<Op>, more: seq<Op>, n: nat, peerId: string)
    requires n <= |ops|
    ensures LastAnnouncement(ops + more, n, peerId) == LastAnnouncement(ops, n, peerId)
    decreases n
  {
    if n > 0 {
      assert (ops + more)[n - 1] == ops[n - 1];
      AnnouncementsExtend(ops, more, n - 1, peerId);
    }
  }

  lemma {:induction false} SameAnnouncements(ops: seq<Op>, n: nat, peerId: string)
    requires n <= |ops|
    ensures var kept := WithoutEvictions(ops, n);
      && LastAnnouncement(kept, |kept|, peerId) == LastAnnouncement(ops, n, peerId)
      && forall i :: 0 <= i < |kept| ==> kept[i].Announce?
    decreases n
  {
    if n > 0 {
      SameAnnouncements(ops, n - 1, peerId);
      var kept := WithoutEvictions(ops, n - 1);
      AnnouncementsExtend(kept, [ops[n - 1]], |kept|, peerId);
    }
  }

  /** Leaving all evictions out of a history changes no lookup after it. */
  lemma EvictionsAreInvisible(ops: seq<Op>, ttl: Uint64, now: Uint64)
    requires EvictionsBy(ops, |ops|, now)
    ensures var kept := WithoutEvictions(ops, |ops|);
      Live(Exec(ops, |ops|, ttl), now, ttl) == Live(Exec(kept, |kept|, ttl), now, ttl)
  {
    var kept := WithoutEvictions(ops, |ops|);
    var with, without := Live(Exec(ops, |ops|, ttl), now, ttl), Live(Exec(kept, |kept|, ttl), now, ttl);
    forall id: string
      ensures (id in with <==> id in without) && (id in with ==> with[id] == without[id])
    {
      SameAnnouncements(ops, |ops|, id);
      LookupsSeeLastAnnouncements(ops, ttl, id, now);
      LookupsSeeLastAnnouncements(kept, ttl, id, now);
    }
  }
}
