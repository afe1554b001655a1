/**
 * The account table of a Solana message: every use of an account by the payer and the
 * instructions, joined per key and put in the order the wire header can describe.
 */
module SolanaAccounts {
  import opened Bytes

  type Pubkey = Bytes32

  /** A key with its privileges: one use of an account, or one entry of the table. */
  datatype Meta = Meta(key: Pubkey, writable: bool, signer: bool)

  datatype Instruction = Instruction(program: Pubkey, accounts: seq<Meta>, data: seq<Byte>)

  // ----- What a table must say, independently of how it is built -----

  ghost predicate Mentions(us: seq<Meta>, k: Pubkey) {
    exists u :: u in us && u.key == k
  }

  ghost predicate UsedWritable(us: seq<Meta>, k: Pubkey) {
    exists u :: u in us && u.key == k && u.writable
  }

  ghost predicate UsedSigner(us: seq<Meta>, k: Pubkey) {
    exists u :: u in us && u.key == k && u.signer
  }

  /** The key at the highest privilege any of its uses asks for. */
  ghost function Joined(us: seq<Meta>, k: Pubkey): Meta {
    Meta(k, UsedWritable(us, k), UsedSigner(us, k))
  }

  predicate Distinct(table: seq<Meta>) {
    forall i, j :: 0 <= i < j < |table| ==> table[i].key != table[j].key
  }

  /** Exactly the used keys, each once, each at its joined privilege. */
  ghost predicate Represents(table: seq<Meta>, us: seq<Meta>) {
    && Distinct(table)
    && (forall m :: m in table ==> Mentions(us, m.key) && m == Joined(us, m.key))
    && (forall u :: u in us ==> Mentions(table, u.key))
  }

  // ----- How the builder collects it -----

  function AccountUses(ixs: seq<Instruction>): seq<Meta> {
    if ixs == [] then []
    else [Meta(ixs[0].program, false, false)] + ixs[0].accounts + AccountUses(ixs[1..])
  }

  /** All uses in the order in which they are collected; the payer's comes first. */
  function Uses(payer: Pubkey, ixs: seq<Instruction>): seq<Meta> {
    [Meta(payer, true, true)] + AccountUses(ixs)
  }

  /** An instruction names the key among its accounts, with the privileges that are asked for. */
  ghost predicate AsksFor(ixs: seq<Instruction>, k: Pubkey, writable: bool, signer: bool) {
    exists i, j :: 0 <= i < |ixs| && 0 <= j < |ixs[i].accounts|
      && ixs[i].accounts[j].key == k
      && (writable ==> ixs[i].accounts[j].writable) && (signer ==> ixs[i].accounts[j].signer)
  }

  ghost predicate IsProgram(ixs: seq<Instruction>, k: Pubkey) {
    exists i :: 0 <= i < |ixs| && ixs[i].program == k
  }

  /** What a use is: the program of an instruction without privileges, or one of its accounts. */
  ghost predicate IsUse(ixs: seq<Instruction>, u: Meta) {
    (u == Meta(u.key, false, false) && IsProgram(ixs, u.key))
    || exists i, j :: 0 <= i < |ixs| && 0 <= j < |ixs[i].accounts| && ixs[i].accounts[j] == u
  }

  lemma IsUseStep(ixs: seq<Instruction>, u: Meta)
    requires ixs != []
    ensures IsUse(ixs, u) <==> u == Meta(ixs[0].program, false, false) || u in ixs[0].accounts || IsUse(ixs[1..], u)
  {
    var tail := ixs[1..];
    if IsUse(tail, u) {
      if IsProgram(tail, u.key) && u == Meta(u.key, false, false) {
        var i :| 0 <= i < |tail| && tail[i].program == u.key;
        assert ixs[i + 1].program == u.key;
      } else {
        var i, j :| 0 <= i < |tail| && 0 <= j < |tail[i].accounts| && tail[i].accounts[j] == u;
        assert ixs[i + 1].accounts[j] == u;
      }
    }
    if u == Meta(ixs[0].program, false, false) {
      assert ixs[0].program == u.key;
    }
    if IsUse(ixs, u) {
      if u == Meta(u.key, false, false) && IsProgram(ixs, u.key) {
        var i :| 0 <= i < |ixs| && ixs[i].program == u.key;
        assert i > 0 ==> tail[i - 1].program == u.key;
      } else {
        var i, j :| 0 <= i < |ixs| && 0 <= j < |ixs[i].accounts| && ixs[i].accounts[j] == u;
        assert i > 0 ==> tail[i - 1].accounts[j] == u;
      }
    }
  }

  lemma {:induction false} UsesOfInstructions(ixs: seq<Instruction>, u: Meta)
    ensures u in AccountUses(ixs) <==> IsUse(ixs, u)
    decreases |ixs|
  {
    if ixs != [] {
      UsesOfInstructions(ixs[1..], u);
      IsUseStep(ixs, u);
    }
  }

  /**
   * Which privileges the uses of a key join to, as the instructions say it: the payer's are
   * both, and any other key has exactly those that some instruction asks for it among its
   * accounts. Being a program gives none.
   */
  lemma JoinedAsAskedFor(payer: Pubkey, ixs: seq<Instruction>, k: Pubkey)
    ensures Mentions(Uses(payer, ixs), k) <==> k == payer || IsProgram(ixs, k) || AsksFor(ixs, k, false, false)
    ensures Joined(Uses(payer, ixs), k).writable <==> k == payer || AsksFor(ixs, k, true, false)
    ensures Joined(Uses(payer, ixs), k).signer <==> k == payer || AsksFor(ixs, k, false, true)
  {
    var us := Uses(payer, ixs);
    forall u: Meta
      ensures u in us <==> u == Meta(payer, true, true) || IsUse(ixs, u)
    {
      UsesOfInstructions(ixs, u);
    }
    assert Meta(payer, true, true) in us;
    if IsProgram(ixs, k) {
      assert IsUse(ixs, Meta(k, false, false));
    }
    forall i, j | 0 <= i < |ixs| && 0 <= j < |ixs[i].accounts|
      ensures ixs[i].accounts[j] in us
    {
      assert IsUse(ixs, ixs[i].accounts[j]);
    }
  }

  /** `position`: the first index of a key, or the length. */
  function Position(table: seq<Meta>, k: Pubkey): (i: nat)
    ensures i <= |table|
    ensures i < |table| ==> table[i].key == k
    ensures forall j :: 0 <= j < i ==> table[j].key != k
  {
    if table == [] || table[0].key == k then 0 else 1 + Position(table[1..], k)
  }

  /** `ensure_account`: upgrade the key's entry in place, or append one. */
  function EnsureAccount(table: seq<Meta>, u: Meta): seq<Meta> {
    var i := Position(table, u.key);
    if i < |table| then
      table[i := Meta(u.key, table[i].writable || u.writable, table[i].signer || u.signer)]
    else
      table + [u]
  }

  function EnsureAll(table: seq<Meta>, us: seq<Meta>): seq<Meta> {
    if us == [] then table
    else EnsureAccount(EnsureAll(table, us[..|us| - 1]), us[|us| - 1])
  }

  lemma JoinedAppend(us: seq<Meta>, u: Meta, k: Pubkey)
    ensures Mentions(us + [u], k) <==> Mentions(us, k) || u.key == k
    ensures Joined(us + [u], k) ==
            if u.key == k then Meta(k, UsedWritable(us, k) || u.writable, UsedSigner(us, k) || u.signer)
            else Joined(us, k)
  {
    assert forall v :: v in us + [u] <==> v in us || v == u;
  }

  lemma EnsureDistinct(table: seq<Meta>, u: Meta)
    requires Distinct(table)
    ensures Distinct(EnsureAccount(table, u))
  {
  }

  lemma NotMentioned(table: seq<Meta>, seen: seq<Meta>, k: Pubkey)
    requires Represents(table, seen) && Position(table, k) == |table|
    ensures !UsedWritable(seen, k) && !UsedSigner(seen, k)
  {
    forall u | u in seen
      ensures u.key != k
    {
      assert Mentions(table, u.key);
    }
  }

  lemma EnsureRepresents(table: seq<Meta>, seen: seq<Meta>, u: Meta)
    requires Represents(table, seen)
    ensures Represents(EnsureAccount(table, u), seen + [u])
  {
    var t, i := EnsureAccount(table, u), Position(table, u.key);
    EnsureDistinct(table, u);
    forall n | 0 <= n < |t|
      ensures Mentions(seen + [u], t[n].key) && t[n] == Joined(seen + [u], t[n].key)
    {
      JoinedAppend(seen, u, t[n].key);
      if n == i < |table| {
        assert table[i] in table;
      } else if n == i {
        NotMentioned(table, seen, u.key);
      } else {
        assert table[n] in table;
        assert table[n].key != u.key;
      }
    }
    forall v | v in seen + [u]
      ensures Mentions(t, v.key)
    {
      if v in seen {
        var m :| m in table && m.key == v.key;
        var n :| 0 <= n < |table| && table[n] == m;
        assert t[n] in t;
      } else {
        assert t[i] in t;
      }
    }
  }

  lemma {:induction false} EnsureAllRepresents(us: seq<Meta>)
    ensures Represents(EnsureAll([], us), us)
  {
    if us != [] {
      var seen, u := us[..|us| - 1], us[|us| - 1];
      EnsureAllRepresents(seen);
      EnsureRepresents(EnsureAll([], seen), seen, u);
      assert seen + [u] == us;
    }
  }

  /** Entries keep their places while the table grows. */
  lemma {:induction false} EnsureAllKeepsFirst(us: seq<Meta>)
    requires us != []
    ensures EnsureAll([], us) != [] && EnsureAll([], us)[0].key == us[0].key
  {
    if |us| > 1 {
      EnsureAllKeepsFirst(us[..|us| - 1]);
    } else {
      assert EnsureAll([], us[..0]) == [];
    }
  }

  /** The entries stand in the order in which their keys are first used. */
  predicate InOrderOfUse(table: seq<Meta>, us: seq<Meta>) {
    forall i, j :: 0 <= i < j < |table| ==> Position(us, table[i].key) < Position(us, table[j].key)
  }

  lemma PositionIsFirst(us: seq<Meta>, k: Pubkey, i: nat)
    requires i < |us| && us[i].key == k && forall j :: 0 <= j < i ==> us[j].key != k
    ensures Position(us, k) == i
  {
  }

  lemma PositionAppend(us: seq<Meta>, u: Meta, k: Pubkey)
    ensures Position(us, k) < |us| ==> Position(us + [u], k) == Position(us, k)
    ensures Position(us, k) == |us| && u.key == k ==> Position(us + [u], k) == |us|
  {
    var more, i := us + [u], Position(us, k);
    assert forall j :: 0 <= j < |us| ==> more[j] == us[j];
    if i < |us| || u.key == k {
      PositionIsFirst(more, k, i);
    }
  }

  /** An entry of the table is used already, and one more use does not move its first. */
  lemma EntryStays(table: seq<Meta>, seen: seq<Meta>, u: Meta, i: nat)
    requires Represents(table, seen) && i < |table|
    ensures Position(seen + [u], table[i].key) == Position(seen, table[i].key) < |seen|
  {
    assert table[i] in table;
    PositionAppend(seen, u, table[i].key);
  }

  /** The use of a key that has no entry yet is its first. */
  lemma NewEntryIsLast(table: seq<Meta>, seen: seq<Meta>, u: Meta)
    requires Represents(table, seen) && Position(table, u.key) == |table|
    ensures Position(seen + [u], u.key) == |seen|
  {
    forall j | 0 <= j < |seen|
      ensures seen[j].key != u.key
    {
      assert seen[j] in seen;
      assert Mentions(table, seen[j].key);
    }
    PositionAppend(seen, u, u.key);
  }

  lemma EnsureKeys(table: seq<Meta>, u: Meta)
    ensures var (t, i) := (EnsureAccount(table, u), Position(table, u.key));
      && |t| == (if i < |table| then |table| else |table| + 1)
      && (forall j :: 0 <= j < |table| ==> t[j].key == table[j].key)
      && (i == |table| ==> t[i].key == u.key)
  {
  }

  lemma EnsureKeepsOrder(table: seq<Meta>, seen: seq<Meta>, u: Meta)
    requires Represents(table, seen) && InOrderOfUse(table, seen)
    ensures InOrderOfUse(EnsureAccount(table, u), seen + [u])
  {
    var t, us := EnsureAccount(table, u), seen + [u];
    EnsureKeys(table, u);
    forall i, j | 0 <= i < j < |t|
      ensures Position(us, t[i].key) < Position(us, t[j].key)
    {
      EntryStays(table, seen, u, i);
      if j < |table| {
        EntryStays(table, seen, u, j);
      } else {
        NewEntryIsLast(table, seen, u);
      }
    }
  }

  /** The keys are collected in the order of their first use. */
  lemma {:induction false} EnsureAllInOrder(us: seq<Meta>)
    ensures InOrderOfUse(EnsureAll([], us), us)
  {
    if us != [] {
      var seen, u := us[..|us| - 1], us[|us| - 1];
      EnsureAllInOrder(seen);
      EnsureAllRepresents(seen);
      EnsureKeepsOrder(EnsureAll([], seen), seen, u);
      assert seen + [u] == us;
    }
  }

  // ----- The four privilege classes -----

  /** The sort key `(!signer, !writable)`, read as a number. */
  function Class(m: Meta): (c: nat)
    ensures c < 4
  {
    (if m.signer then 0 else 2) + (if m.writable then 0 else 1)
  }

  function OfClass(table: seq<Meta>, c: nat): seq<Meta> {
    if table == [] then []
    else if Class(table[0]) == c then [table[0]] + OfClass(table[1..], c)
    else OfClass(table[1..], c)
  }

  /** What the stable `sort_by_key` leaves. */
  function SortByClass(table: seq<Meta>): seq<Meta> {
    OfClass(table, 0) + OfClass(table, 1) + OfClass(table, 2) + OfClass(table, 3)
  }

  predicate SortedByClass(table: seq<Meta>) {
    forall i, j :: 0 <= i < j < |table| ==> Class(table[i]) <= Class(table[j])
  }

  lemma {:induction false} OfClassConcat(a: seq<Meta>, b: seq<Meta>, c: nat)
    ensures OfClass(a + b, c) == OfClass(a, c) + OfClass(b, c)
  {
    if a == [] {
      assert a + b == b;
    } else {
      var tail := a[1..];
      assert (a + b)[1..] == tail + b && (a + b)[0] == a[0];
      OfClassConcat(tail, b, c);
      assert [a[0]] + OfClass(tail, c) + OfClass(b, c) == [a[0]] + (OfClass(tail, c) + OfClass(b, c));
    }
  }

  lemma {:induction false} OfClassMembers(table: seq<Meta>, c: nat)
    ensures forall m :: m in OfClass(table, c) <==> m in table && Class(m) == c
  {
    if table != [] {
      OfClassMembers(table[1..], c);
      assert forall m :: m in table <==> m == table[0] || m in table[1..];
    }
  }

  lemma {:induction false} OfClassOfClass(table: seq<Meta>, c: nat, d: nat)
    ensures OfClass(OfClass(table, c), d) == if c == d then OfClass(table, c) else []
  {
    if table != [] {
      OfClassOfClass(table[1..], c, d);
      if Class(table[0]) == c {
        OfClassConcat([table[0]], OfClass(table[1..], c), d);
      }
    }
  }

  /** The class that stands at index `i` after sorting, read from the class sizes. */
  function ClassAt(table: seq<Meta>, i: nat): nat {
    var a, b, c := |OfClass(table, 0)|, |OfClass(table, 1)|, |OfClass(table, 2)|;
    if i < a then 0 else if i < a + b then 1 else if i < a + b + c then 2 else 3
  }

  lemma ClassOfSorted(table: seq<Meta>, i: nat)
    requires i < |SortByClass(table)|
    ensures Class(SortByClass(table)[i]) == ClassAt(table, i)
  {
    var c := ClassAt(table, i);
    OfClassMembers(table, c);
    assert SortByClass(table)[i] in OfClass(table, c);
  }

  lemma SortKeepsClass(table: seq<Meta>, c: nat)
    requires c < 4
    ensures OfClass(SortByClass(table), c) == OfClass(table, c)
  {
    var p, q, r, s := OfClass(table, 0), OfClass(table, 1), OfClass(table, 2), OfClass(table, 3);
    OfClassConcat(p + q + r, s, c);
    OfClassConcat(p + q, r, c);
    OfClassConcat(p, q, c);
    OfClassOfClass(table, 0, c);
    OfClassOfClass(table, 1, c);
    OfClassOfClass(table, 2, c);
    OfClassOfClass(table, 3, c);
  }

  /** The result is sorted, and within each class the order is the table's own: the sort is stable. */
  lemma SortIsStable(table: seq<Meta>)
    ensures SortedByClass(SortByClass(table))
    ensures forall c :: 0 <= c < 4 ==> OfClass(SortByClass(table), c) == OfClass(table, c)
  {
    var s := SortByClass(table);
    forall i | 0 <= i < |s|
      ensures Class(s[i]) == ClassAt(table, i)
    {
      ClassOfSorted(table, i);
    }
    forall c | 0 <= c < 4
      ensures OfClass(s, c) == OfClass(table, c)
    {
      SortKeepsClass(table, c);
    }
  }

  /** An entry in front of a table without lower classes stays in front. */
  lemma SortCons(m: Meta, t: seq<Meta>)
    requires forall c :: 0 <= c < Class(m) ==> OfClass(t, c) == []
    ensures SortByClass([m] + t) == [m] + SortByClass(t)
  {
    var s := [m] + t;
    assert s[1..] == t;
    var p, q, r, z := OfClass(t, 0), OfClass(t, 1), OfClass(t, 2), OfClass(t, 3);
    if Class(m) == 0 {
      assert SortByClass(s) == ([m] + p) + q + r + z;
    } else if Class(m) == 1 {
      assert SortByClass(s) == p + ([m] + q) + r + z;
    } else if Class(m) == 2 {
      assert SortByClass(s) == p + q + ([m] + r) + z;
    } else {
      assert SortByClass(s) == p + q + r + ([m] + z);
    }
  }

  lemma NoneOfClass(table: seq<Meta>, c: nat, least: nat)
    requires forall m :: m in table ==> least <= Class(m)
    ensures c < least ==> OfClass(table, c) == []
  {
    OfClassMembers(table, c);
    assert OfClass(table, c) != [] ==> OfClass(table, c)[0] in table;
  }

  lemma {:induction false} SortedSplits(s: seq<Meta>)
    requires SortedByClass(s)
    ensures s == SortByClass(s)
  {
    if s != [] {
      var m, t, c := s[0], s[1..], Class(s[0]);
      SortedSplits(t);
      assert forall n :: n in t ==> c <= Class(n);
      NoneOfClass(t, 0, c);
      NoneOfClass(t, 1, c);
      NoneOfClass(t, 2, c);
      SortCons(m, t);
      assert s == [m] + t;
    }
  }

  /** Sortedness and stability leave no choice: any such rearrangement is the one returned. */
  lemma SortIsUnique(table: seq<Meta>, s: seq<Meta>)
    requires SortedByClass(s)
    requires forall c :: 0 <= c < 4 ==> OfClass(s, c) == OfClass(table, c)
    ensures s == SortByClass(table)
  {
    SortedSplits(s);
  }

  lemma {:induction false} OfClassDistinct(table: seq<Meta>, c: nat)
    requires Distinct(table)
    ensures Distinct(OfClass(table, c))
  {
    if table != [] {
      OfClassDistinct(table[1..], c);
      OfClassMembers(table[1..], c);
      var rest := OfClass(table[1..], c);
      forall i | 0 <= i < |rest|
        ensures rest[i].key != table[0].key
      {
        assert rest[i] in table[1..];
      }
    }
  }

  lemma SortMembers(table: seq<Meta>)
    ensures forall m :: m in SortByClass(table) <==> m in table
  {
    OfClassMembers(table, 0);
    OfClassMembers(table, 1);
    OfClassMembers(table, 2);
    OfClassMembers(table, 3);
  }

  lemma SameKeySameEntry(table: seq<Meta>, m: Meta, n: Meta)
    requires Distinct(table) && m in table && n in table && m.key == n.key
    ensures m == n
  {
    var i :| 0 <= i < |table| && table[i] == m;
    var j :| 0 <= j < |table| && table[j] == n;
  }

  /** An entry that stands at two places of `s` stands at two places of its class. */
  lemma TwicePresent(s: seq<Meta>, i: nat, j: nat)
    requires i < j < |s| && s[i] == s[j]
    ensures !Distinct(OfClass(s, Class(s[i])))
  {
    var c := Class(s[i]);
    assert s == s[..j] + s[j..];
    OfClassConcat(s[..j], s[j..], c);
    OfClassMembers(s[..j], c);
    OfClassMembers(s[j..], c);
    assert s[..j][i] == s[i] && s[j..][0] == s[i];
    var a, b := OfClass(s[..j], c), OfClass(s[j..], c);
    var x :| 0 <= x < |a| && a[x] == s[i];
    var y :| 0 <= y < |b| && b[y] == s[i];
    assert (a + b)[x].key == (a + b)[|a| + y].key;
  }

  lemma SortKeepsDistinct(table: seq<Meta>)
    requires Distinct(table)
    ensures Distinct(SortByClass(table))
  {
    SortIsStable(table);
    SortMembers(table);
    var s := SortByClass(table);
    forall i, j | 0 <= i < j < |s|
      ensures s[i].key != s[j].key
    {
      if s[i].key == s[j].key {
        assert s[i] in table && s[j] in table;
        SameKeySameEntry(table, s[i], s[j]);
        TwicePresent(s, i, j);
        OfClassDistinct(table, Class(s[i]));
      }
    }
  }

  /** The builder's table: collected, joined and sorted. */
  function AccountTable(payer: Pubkey, ixs: seq<Instruction>): seq<Meta> {
    SortByClass(EnsureAll([], Uses(payer, ixs)))
  }

  lemma SortRepresents(table: seq<Meta>, us: seq<Meta>)
    requires Represents(table, us)
    ensures Represents(SortByClass(table), us)
  {
    SortMembers(table);
    SortKeepsDistinct(table);
    forall u | u in us
      ensures Mentions(SortByClass(table), u.key)
    {
      var m :| m in table && m.key == u.key;
      assert m in SortByClass(table);
    }
  }

  lemma PayerJoined(payer: Pubkey, ixs: seq<Instruction>)
    ensures Joined(Uses(payer, ixs), payer) == Meta(payer, true, true)
  {
    assert Uses(payer, ixs)[0] in Uses(payer, ixs);
  }

  /** No key twice, exactly the used keys, each at its joined privilege, the payer first. */
  lemma AccountTableCorrect(payer: Pubkey, ixs: seq<Instruction>)
    ensures Represents(AccountTable(payer, ixs), Uses(payer, ixs))
    ensures SortedByClass(AccountTable(payer, ixs))
    ensures |AccountTable(payer, ixs)| > 0 && AccountTable(payer, ixs)[0] == Meta(payer, true, true)
  {
    var us := Uses(payer, ixs);
    var collected := EnsureAll([], us);
    EnsureAllRepresents(us);
    SortRepresents(collected, us);
    SortIsStable(collected);
    EnsureAllKeepsFirst(us);
    PayerJoined(payer, ixs);
    assert collected[0] in collected;
    assert OfClass(collected, 0)[0] == collected[0];
  }

  lemma {:induction false} OfClassInOrder(table: seq<Meta>, us: seq<Meta>, c: nat)
    requires InOrderOfUse(table, us)
    ensures InOrderOfUse(OfClass(table, c), us)
  {
    if table != [] {
      OfClassInOrder(table[1..], us, c);
      OfClassMembers(table[1..], c);
      var rest := OfClass(table[1..], c);
      forall i | 0 <= i < |rest|
        ensures Position(us, table[0].key) < Position(us, rest[i].key)
      {
        assert rest[i] in table[1..];
      }
    }
  }

  /** Two entries of one class stand in that class in their order. */
  lemma OrderInClass(s: seq<Meta>, i: nat, j: nat, us: seq<Meta>)
    requires i < j < |s| && Class(s[i]) == Class(s[j])
    requires InOrderOfUse(OfClass(s, Class(s[i])), us)
    ensures Position(us, s[i].key) < Position(us, s[j].key)
  {
    var c := Class(s[i]);
    assert s == s[..j] + s[j..];
    OfClassConcat(s[..j], s[j..], c);
    OfClassMembers(s[..j], c);
    assert s[..j][i] == s[i] && s[j..][0] == s[j];
    var a, b := OfClass(s[..j], c), OfClass(s[j..], c);
    var x :| 0 <= x < |a| && a[x] == s[i];
    assert b[0] == s[j];
    assert (a + b)[x] == s[i] && (a + b)[|a|] == s[j];
  }

  /** Inside each privilege class the keys of the finished table stand in the order of their first use. */
  lemma AccountTableInOrder(payer: Pubkey, ixs: seq<Instruction>, i: nat, j: nat)
    requires i < j < |AccountTable(payer, ixs)|
    requires Class(AccountTable(payer, ixs)[i]) == Class(AccountTable(payer, ixs)[j])
    ensures var (table, us) := (AccountTable(payer, ixs), Uses(payer, ixs));
      Position(us, table[i].key) < Position(us, table[j].key)
  {
    var us, table := Uses(payer, ixs), AccountTable(payer, ixs);
    var c := Class(table[i]);
    EnsureAllInOrder(us);
    OfClassInOrder(EnsureAll([], us), us, c);
    SortKeepsClass(EnsureAll([], us), c);
    OrderInClass(table, i, j, us);
  }
}
