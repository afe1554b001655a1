/**
 * Recompiling what was decompiled gives the same bytes: raising every account to the joined
 * privilege of its key changes neither the account table nor any index.
 */
module SolanaRecompile {
  import opened Bytes
  import opened SolanaAccounts
  import opened SolanaMessage

  // ----- Uses raised to the joined privileges -----

  /** Each use as it was, or at the joined privilege that its key has in `all`. */
  ghost predicate Raises(all: seq<Meta>, us: seq<Meta>, vs: seq<Meta>) {
    |us| == |vs| && forall i :: 0 <= i < |us| ==> vs[i] == us[i] || vs[i] == Joined(all, us[i].key)
  }

  lemma RaisesConcat(all: seq<Meta>, a: seq<Meta>, b: seq<Meta>, c: seq<Meta>, d: seq<Meta>)
    requires Raises(all, a, b) && Raises(all, c, d)
    ensures Raises(all, a + c, b + d)
  {
  }

  lemma {:induction false} LiftRaises(all: seq<Meta>, accounts: seq<Meta>)
    ensures Raises(all, accounts, Lift(all, accounts))
    decreases |accounts|
  {
    if accounts != [] {
      LiftRaises(all, accounts[1..]);
      RaisesConcat(all, [accounts[0]], [Joined(all, accounts[0].key)], accounts[1..], Lift(all, accounts[1..]));
      assert accounts == [accounts[0]] + accounts[1..];
    }
  }

  lemma UsesOfLifted(all: seq<Meta>, ixs: seq<Instruction>)
    requires ixs != []
    ensures AccountUses(LiftIxs(all, ixs))
         == [Meta(ixs[0].program, false, false)] + Lift(all, ixs[0].accounts) + AccountUses(LiftIxs(all, ixs[1..]))
  {
    var lifted := LiftIxs(all, ixs);
    assert lifted[1..] == LiftIxs(all, ixs[1..]);
    assert lifted[0] == Instruction(ixs[0].program, Lift(all, ixs[0].accounts), ixs[0].data);
  }

  lemma {:induction false} LiftedUsesRaise(all: seq<Meta>, ixs: seq<Instruction>)
    ensures Raises(all, AccountUses(ixs), AccountUses(LiftIxs(all, ixs)))
    decreases |ixs|
  {
    if ixs != [] {
      var program := [Meta(ixs[0].program, false, false)];
      LiftRaises(all, ixs[0].accounts);
      LiftedUsesRaise(all, ixs[1..]);
      RaisesConcat(all, program, program, ixs[0].accounts, Lift(all, ixs[0].accounts));
      RaisesConcat(all, program + ixs[0].accounts, program + Lift(all, ixs[0].accounts),
                   AccountUses(ixs[1..]), AccountUses(LiftIxs(all, ixs[1..])));
      UsesOfLifted(all, ixs);
    }
  }

  lemma RaisedUse(all: seq<Meta>, vs: seq<Meta>, i: nat)
    requires Raises(all, all, vs) && i < |all|
    ensures vs[i].key == all[i].key
    ensures (all[i].writable ==> vs[i].writable) && (vs[i].writable ==> UsedWritable(all, vs[i].key))
    ensures (all[i].signer ==> vs[i].signer) && (vs[i].signer ==> UsedSigner(all, vs[i].key))
  {
    assert all[i] in all;
  }

  /** Raising uses to what is joined anyway joins to the same. */
  lemma RaisedJoinsTheSame(us: seq<Meta>, vs: seq<Meta>, k: Pubkey)
    requires Raises(us, us, vs)
    ensures Joined(vs, k) == Joined(us, k)
  {
    forall i | 0 <= i < |us|
      ensures us[i].key == k && us[i].writable ==> UsedWritable(vs, k)
      ensures us[i].key == k && us[i].signer ==> UsedSigner(vs, k)
      ensures vs[i].key == k && vs[i].writable ==> UsedWritable(us, k)
      ensures vs[i].key == k && vs[i].signer ==> UsedSigner(us, k)
    {
      RaisedUse(us, vs, i);
      assert vs[i] in vs;
    }
  }

  // ----- The table stays as it is -----

  predicate SameKeys(s: seq<Meta>, t: seq<Meta>) {
    |s| == |t| && forall i :: 0 <= i < |s| ==> s[i].key == t[i].key
  }

  lemma {:induction false} PositionByKeys(s: seq<Meta>, t: seq<Meta>, k: Pubkey)
    requires SameKeys(s, t)
    ensures Position(s, k) == Position(t, k)
    decreases |s|
  {
    if s != [] && s[0].key != k {
      PositionByKeys(s[1..], t[1..], k);
    }
  }

  lemma EnsureSameKeys(s: seq<Meta>, t: seq<Meta>, u: Meta, v: Meta)
    requires SameKeys(s, t) && u.key == v.key
    ensures SameKeys(EnsureAccount(s, u), EnsureAccount(t, v))
  {
    PositionByKeys(s, t, u.key);
  }

  lemma {:induction false} EnsureAllSameKeys(us: seq<Meta>, vs: seq<Meta>)
    requires SameKeys(us, vs)
    ensures SameKeys(EnsureAll([], us), EnsureAll([], vs))
    decreases |us|
  {
    if us != [] {
      var n := |us| - 1;
      EnsureAllSameKeys(us[..n], vs[..n]);
      EnsureSameKeys(EnsureAll([], us[..n]), EnsureAll([], vs[..n]), us[n], vs[n]);
    }
  }

  lemma RaisedTableSame(us: seq<Meta>, vs: seq<Meta>)
    requires Raises(us, us, vs)
    ensures EnsureAll([], vs) == EnsureAll([], us)
  {
    EnsureAllSameKeys(us, vs);
    EnsureAllRepresents(us);
    EnsureAllRepresents(vs);
    var s, t := EnsureAll([], us), EnsureAll([], vs);
    forall i | 0 <= i < |s|
      ensures s[i] == t[i]
    {
      assert s[i] in s && t[i] in t;
      RaisedJoinsTheSame(us, vs, s[i].key);
    }
  }

  lemma LiftedTableSame(payer: Pubkey, ixs: seq<Instruction>)
    ensures AccountTable(payer, LiftIxs(Uses(payer, ixs), ixs)) == AccountTable(payer, ixs)
  {
    var us := Uses(payer, ixs);
    var first := [Meta(payer, true, true)];
    LiftedUsesRaise(us, ixs);
    RaisesConcat(us, first, first, AccountUses(ixs), AccountUses(LiftIxs(us, ixs)));
    RaisedTableSame(us, Uses(payer, LiftIxs(us, ixs)));
  }

  // ----- And so do the instructions -----

  lemma {:induction false} LiftedIndicesSame(table: seq<Meta>, all: seq<Meta>, accounts: seq<Meta>)
    ensures Indices(table, Lift(all, accounts)) == Indices(table, accounts)
    decreases |accounts|
  {
    if accounts != [] {
      LiftedIndicesSame(table, all, accounts[1..]);
      var lifted := Lift(all, accounts);
      assert lifted[0].key == accounts[0].key && lifted[1..] == Lift(all, accounts[1..]);
    }
  }

  lemma {:induction false} LiftedIxsSame(table: seq<Meta>, all: seq<Meta>, ixs: seq<Instruction>)
    ensures CompileIxs(table, LiftIxs(all, ixs)) == CompileIxs(table, ixs)
    decreases |ixs|
  {
    if ixs != [] {
      LiftedIxsSame(table, all, ixs[1..]);
      LiftedIndicesSame(table, all, ixs[0].accounts);
      var lifted := LiftIxs(all, ixs);
      assert lifted[0] == Instruction(ixs[0].program, Lift(all, ixs[0].accounts), ixs[0].data);
      assert lifted[1..] == LiftIxs(all, ixs[1..]);
    }
  }

  /** The message of the instructions at their joined privileges is the message itself. */
  lemma LiftedCompilesTheSame(payer: Pubkey, ixs: seq<Instruction>, blockhash: Pubkey)
    ensures MessageBytes(payer, LiftIxs(Uses(payer, ixs), ixs), blockhash) == MessageBytes(payer, ixs, blockhash)
  {
    LiftedTableSame(payer, ixs);
    LiftedIxsSame(AccountTable(payer, ixs), Uses(payer, ixs), ixs);
  }

  function Recompile(s: Source): seq<Byte> {
    MessageBytes(s.payer.key, s.ixs, s.blockhash)
  }

  /** Decompiling and compiling again is the identity on the builder's messages. */
  lemma RecompileIsIdentity(payer: Pubkey, ixs: seq<Instruction>, blockhash: Pubkey)
    requires Fits(payer, ixs)
    ensures var bs := MessageBytes(payer, ixs, blockhash);
      Recover(bs).Some? && Recompile(Recover(bs).value) == bs
  {
    RecoverIffFits(payer, ixs, blockhash);
    LiftedCompilesTheSame(payer, ixs, blockhash);
  }

  /** Messages are equal exactly when their meanings are: nothing but the meaning is in the bytes. */
  lemma BytesEqualIffMeaningsEqual(
      payer1: Pubkey, ixs1: seq<Instruction>, hash1: Pubkey,
      payer2: Pubkey, ixs2: seq<Instruction>, hash2: Pubkey)
    requires Fits(payer1, ixs1) && Fits(payer2, ixs2)
    ensures MessageBytes(payer1, ixs1, hash1) == MessageBytes(payer2, ixs2, hash2)
      <==> Meaning(payer1, ixs1, hash1) == Meaning(payer2, ixs2, hash2)
  {
    if MessageBytes(payer1, ixs1, hash1) == MessageBytes(payer2, ixs2, hash2) {
      MessageDeterminesMeaning(payer1, ixs1, hash1, payer2, ixs2, hash2);
    }
    LiftedCompilesTheSame(payer1, ixs1, hash1);
    LiftedCompilesTheSame(payer2, ixs2, hash2);
  }
}
