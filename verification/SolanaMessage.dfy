/**
 * Compiling instructions into a Solana message, decompiling the message again, and the
 * exact condition under which nothing is lost on the way.
 */
module SolanaMessage {
  import opened Bytes
  import opened Collections
  import opened Machine
  import opened Options
  import opened SolanaAccounts
  import opened SolanaWire

  // ----- The compiler -----

  function SignerCount(table: seq<Meta>): nat {
    |OfClass(table, 0)| + |OfClass(table, 1)|
  }

  /** `idx_of`, cast to `u8`. */
  function IndexOf(table: seq<Meta>, k: Pubkey): Byte {
    Position(table, k) % 256
  }

  function Indices(table: seq<Meta>, accounts: seq<Meta>): (r: seq<Byte>)
    ensures |r| == |accounts|
  {
    if accounts == [] then [] else [IndexOf(table, accounts[0].key)] + Indices(table, accounts[1..])
  }

  function CompileIx(table: seq<Meta>, ix: Instruction): CompiledIx {
    CompiledIx(IndexOf(table, ix.program), Indices(table, ix.accounts), ix.data)
  }

  function CompileIxs(table: seq<Meta>, ixs: seq<Instruction>): (r: seq<CompiledIx>)
    ensures |r| == |ixs|
  {
    if ixs == [] then [] else [CompileIx(table, ixs[0])] + CompileIxs(table, ixs[1..])
  }

  function KeysOf(table: seq<Meta>): (r: seq<Pubkey>)
    ensures |r| == |table|
    ensures forall i :: 0 <= i < |r| ==> r[i] == table[i].key
  {
    if table == [] then [] else [table[0].key] + KeysOf(table[1..])
  }

  function Compile(payer: Pubkey, ixs: seq<Instruction>, blockhash: Pubkey): Message {
    var table := AccountTable(payer, ixs);
    Message(
      SignerCount(table) % 256,
      |OfClass(table, 1)| % 256,
      |OfClass(table, 3)| % 256,
      KeysOf(table),
      blockhash,
      CompileIxs(table, ixs))
  }

  function MessageBytes(payer: Pubkey, ixs: seq<Instruction>, blockhash: Pubkey): seq<Byte> {
    Serialize(Compile(payer, ixs, blockhash))
  }

  // ----- The decompiler -----

  datatype Source = Source(payer: Meta, ixs: seq<Instruction>, blockhash: Pubkey)

  /** A key of the table with the privileges that the header counts give its place. */
  function MetaAt(m: Message, i: nat): Option<Meta> {
    if i >= |m.keys| then None
    else if i < m.signers then Some(Meta(m.keys[i], i < m.signers - m.readonlySigners, true))
    else Some(Meta(m.keys[i], i < |m.keys| - m.readonlyOthers, false))
  }

  function MetasAt(m: Message, indices: seq<Byte>): (r: Option<seq<Meta>>)
    ensures r.Some? ==> |r.value| == |indices|
  {
    if indices == [] then Some([])
    else
      var head :- MetaAt(m, indices[0]);
      var tail :- MetasAt(m, indices[1..]);
      Some([head] + tail)
  }

  function DecompileIx(m: Message, ix: CompiledIx): Option<Instruction> {
    var program :- MetaAt(m, ix.program);
    var accounts :- MetasAt(m, ix.accounts);
    Some(Instruction(program.key, accounts, ix.data))
  }

  function DecompileIxs(m: Message, ixs: seq<CompiledIx>): (r: Option<seq<Instruction>>)
    ensures r.Some? ==> |r.value| == |ixs|
  {
    if ixs == [] then Some([])
    else
      var head :- DecompileIx(m, ixs[0]);
      var tail :- DecompileIxs(m, ixs[1..]);
      Some([head] + tail)
  }

  function Decompile(m: Message): Option<Source> {
    var payer :- MetaAt(m, 0);
    var ixs :- DecompileIxs(m, m.ixs);
    Some(Source(payer, ixs, m.blockhash))
  }

  /** What a reader of the message bytes recovers. */
  function Recover(bs: seq<Byte>): Option<Source> {
    var m :- Parse(bs);
    Decompile(m)
  }

  // ----- What ought to be recovered -----

  ghost function Lift(us: seq<Meta>, accounts: seq<Meta>): seq<Meta> {
    if accounts == [] then [] else [Joined(us, accounts[0].key)] + Lift(us, accounts[1..])
  }

  ghost function LiftIxs(us: seq<Meta>, ixs: seq<Instruction>): (r: seq<Instruction>)
    ensures |r| == |ixs|
  {
    if ixs == [] then []
    else [Instruction(ixs[0].program, Lift(us, ixs[0].accounts), ixs[0].data)] + LiftIxs(us, ixs[1..])
  }

  /** The builder's input, every account at the joined privilege of its key. */
  ghost function Meaning(payer: Pubkey, ixs: seq<Instruction>, blockhash: Pubkey): Source {
    Source(Meta(payer, true, true), LiftIxs(Uses(payer, ixs), ixs), blockhash)
  }

  predicate IxFits(ix: Instruction) {
    |ix.accounts| < U16 && |ix.data| < U16
  }

  predicate AllFit(ixs: seq<Instruction>) {
    |ixs| < U16 && forall i :: 0 <= i < |ixs| ==> IxFits(ixs[i])
  }

  /** Every index fits a `u8`, the header counts do, and every length fits a `u16`. */
  predicate TableFits(table: seq<Meta>) {
    |table| <= 256 && SignerCount(table) <= 255
  }

  predicate Fits(payer: Pubkey, ixs: seq<Instruction>) {
    TableFits(AccountTable(payer, ixs)) && AllFit(ixs)
  }

  // ----- Privileges survive -----

  lemma ClassSizes(table: seq<Meta>)
    ensures |OfClass(table, 0)| + |OfClass(table, 1)| + |OfClass(table, 2)| + |OfClass(table, 3)| == |table|
  {
    if table != [] {
      ClassSizes(table[1..]);
    }
  }

  /** In a sorted table the class sizes tell the privileges at each place. */
  lemma PlaceGivesPrivileges(table: seq<Meta>, i: nat)
    requires SortedByClass(table) && i < |table|
    ensures table[i].signer <==> i < SignerCount(table)
    ensures table[i].writable <==>
      if table[i].signer then i < SignerCount(table) - |OfClass(table, 1)| else i < |table| - |OfClass(table, 3)|
  {
    SortedSplits(table);
    ClassOfSorted(table, i);
    ClassSizes(table);
  }

  /** The payer signs, so not every account is a read-only non-signer. */
  lemma OthersBound(table: seq<Meta>)
    requires table != [] && table[0].signer
    ensures |OfClass(table, 3)| < |table|
  {
    ClassSizes(table);
    OfClassMembers(table, Class(table[0]));
    assert table[0] in OfClass(table, Class(table[0]));
  }

  /** The header and keys of a compiled table. */
  predicate HasTable(m: Message, table: seq<Meta>) {
    && m.signers == SignerCount(table) % 256
    && m.readonlySigners == |OfClass(table, 1)| % 256
    && m.readonlyOthers == |OfClass(table, 3)| % 256
    && m.keys == KeysOf(table)
  }

  lemma PlaceRecovered(table: seq<Meta>, m: Message, i: nat)
    requires HasTable(m, table) && TableFits(table) && SortedByClass(table)
    requires i < |table| && table[0].signer
    ensures MetaAt(m, i) == Some(table[i])
  {
    OthersBound(table);
    assert m.signers == SignerCount(table) && m.readonlySigners == |OfClass(table, 1)|;
    assert m.readonlyOthers == |OfClass(table, 3)| && |m.keys| == |table|;
    PlaceGivesPrivileges(table, i);
  }

  /**
   * The three header counts say of each place of the table whether its key signs and whether
   * it is writable, and they say what the joined uses of that key say.
   */
  lemma HeaderGivesPrivileges(payer: Pubkey, ixs: seq<Instruction>, blockhash: Pubkey, i: nat)
    requires TableFits(AccountTable(payer, ixs)) && i < |AccountTable(payer, ixs)|
    ensures MetaAt(Compile(payer, ixs, blockhash), i) == Some(AccountTable(payer, ixs)[i])
    ensures AccountTable(payer, ixs)[i] == Joined(Uses(payer, ixs), AccountTable(payer, ixs)[i].key)
  {
    AccountTableCorrect(payer, ixs);
    assert AccountTable(payer, ixs)[i] in AccountTable(payer, ixs);
    PlaceRecovered(AccountTable(payer, ixs), Compile(payer, ixs, blockhash), i);
  }

  lemma IndexFindsKey(table: seq<Meta>, k: Pubkey)
    requires |table| <= 256 && Mentions(table, k)
    ensures IndexOf(table, k) < |table| && table[IndexOf(table, k)].key == k
  {
    var m :| m in table && m.key == k;
    var i :| 0 <= i < |table| && table[i] == m;
  }

  lemma KeyRecovered(payer: Pubkey, ixs: seq<Instruction>, blockhash: Pubkey, k: Pubkey)
    requires TableFits(AccountTable(payer, ixs)) && Mentions(Uses(payer, ixs), k)
    ensures MetaAt(Compile(payer, ixs, blockhash), IndexOf(AccountTable(payer, ixs), k))
            == Some(Joined(Uses(payer, ixs), k))
  {
    var table := AccountTable(payer, ixs);
    AccountTableCorrect(payer, ixs);
    var u :| u in Uses(payer, ixs) && u.key == k;
    IndexFindsKey(table, k);
    HeaderGivesPrivileges(payer, ixs, blockhash, IndexOf(table, k));
  }

  lemma {:induction false} AccountsRecovered(payer: Pubkey, ixs: seq<Instruction>, blockhash: Pubkey, accounts: seq<Meta>)
    requires TableFits(AccountTable(payer, ixs))
    requires forall a :: a in accounts ==> Mentions(Uses(payer, ixs), a.key)
    ensures MetasAt(Compile(payer, ixs, blockhash), Indices(AccountTable(payer, ixs), accounts))
            == Some(Lift(Uses(payer, ixs), accounts))
  {
    if accounts != [] {
      var table, head, tail := AccountTable(payer, ixs), accounts[0], accounts[1..];
      assert head in accounts;
      KeyRecovered(payer, ixs, blockhash, head.key);
      AccountsRecovered(payer, ixs, blockhash, tail);
      var r := Indices(table, accounts);
      assert r[0] == IndexOf(table, head.key) && r[1..] == Indices(table, tail);
    }
  }

  /** The instructions from position `n` on: their uses are among all the uses. */
  lemma {:induction false} UsesOfIx(ixs: seq<Instruction>, n: nat)
    requires n < |ixs|
    ensures Mentions(AccountUses(ixs), ixs[n].program)
    ensures forall a :: a in ixs[n].accounts ==> Mentions(AccountUses(ixs), a.key)
  {
    var head, tail := [Meta(ixs[0].program, false, false)] + ixs[0].accounts, AccountUses(ixs[1..]);
    assert forall u :: u in AccountUses(ixs) <==> u in head || u in tail;
    if n == 0 {
      assert head[0] in AccountUses(ixs);
    } else {
      UsesOfIx(ixs[1..], n - 1);
    }
  }

  lemma {:induction false} IxsRecovered(payer: Pubkey, ixs: seq<Instruction>, blockhash: Pubkey, n: nat)
    requires TableFits(AccountTable(payer, ixs)) && n <= |ixs|
    ensures DecompileIxs(Compile(payer, ixs, blockhash), CompileIxs(AccountTable(payer, ixs), ixs[n..]))
            == Some(LiftIxs(Uses(payer, ixs), ixs[n..]))
    decreases |ixs| - n
  {
    if n < |ixs| {
      var us, table, ix := Uses(payer, ixs), AccountTable(payer, ixs), ixs[n];
      UsesOfIx(ixs, n);
      assert forall k :: Mentions(AccountUses(ixs), k) ==> Mentions(us, k) by {
        assert forall u :: u in AccountUses(ixs) ==> u in us;
      }
      KeyRecovered(payer, ixs, blockhash, ix.program);
      AccountsRecovered(payer, ixs, blockhash, ix.accounts);
      IxsRecovered(payer, ixs, blockhash, n + 1);
      assert ixs[n..][0] == ix && ixs[n..][1..] == ixs[n + 1..];
      var cs := CompileIxs(table, ixs[n..]);
      assert cs[0] == CompileIx(table, ix) && cs[1..] == CompileIxs(table, ixs[n + 1..]);
    }
  }

  lemma {:induction false} CompiledSized(table: seq<Meta>, ixs: seq<Instruction>)
    requires forall i :: 0 <= i < |ixs| ==> IxFits(ixs[i])
    ensures AllSized(CompileIxs(table, ixs))
  {
    if ixs != [] {
      CompiledSized(table, ixs[1..]);
    }
  }

  lemma RecoveredWhenFits(payer: Pubkey, ixs: seq<Instruction>, blockhash: Pubkey)
    requires Fits(payer, ixs)
    ensures Recover(MessageBytes(payer, ixs, blockhash)) == Some(Meaning(payer, ixs, blockhash))
  {
    var m, table := Compile(payer, ixs, blockhash), AccountTable(payer, ixs);
    CompiledSized(table, ixs);
    ParseSerialize(m);
    AccountTableCorrect(payer, ixs);
    HeaderGivesPrivileges(payer, ixs, blockhash, 0);
    IxsRecovered(payer, ixs, blockhash, 0);
    assert ixs[0..] == ixs;
  }

  // ----- And nothing else can be recovered -----

  function KeySet(us: seq<Meta>): set<Pubkey> {
    set u | u in us :: u.key
  }

  function Elements(ks: seq<Pubkey>): set<Pubkey> {
    set k | k in ks
  }

  lemma {:induction false} ElementsBound(ks: seq<Pubkey>)
    ensures |Elements(ks)| <= |ks|
  {
    if ks != [] {
      ElementsBound(ks[1..]);
      assert Elements(ks) == {ks[0]} + Elements(ks[1..]);
    }
  }

  lemma {:induction false} DistinctKeySet(table: seq<Meta>)
    requires Distinct(table)
    ensures |KeySet(table)| == |table|
  {
    if table != [] {
      DistinctKeySet(table[1..]);
      assert table[0].key !in KeySet(table[1..]);
      assert KeySet(table) == {table[0].key} + KeySet(table[1..]);
    }
  }

  /** The keys that a one-byte index can reach. */
  function Reachable(m: Message): set<Pubkey> {
    Elements(if |m.keys| <= 256 then m.keys else m.keys[..256])
  }

  lemma MetaReachable(m: Message, i: Byte)
    ensures MetaAt(m, i).Some? ==> MetaAt(m, i).value.key in Reachable(m)
  {
    if i < |m.keys| && |m.keys| > 256 {
      assert m.keys[..256][i] == m.keys[i];
    }
  }

  lemma {:induction false} MetasReachable(m: Message, indices: seq<Byte>)
    ensures MetasAt(m, indices).Some? ==> KeySet(MetasAt(m, indices).value) <= Reachable(m)
  {
    if indices != [] {
      MetaReachable(m, indices[0]);
      MetasReachable(m, indices[1..]);
    }
  }

  lemma UsesSplit(ixs: seq<Instruction>)
    requires ixs != []
    ensures KeySet(AccountUses(ixs)) == {ixs[0].program} + KeySet(ixs[0].accounts) + KeySet(AccountUses(ixs[1..]))
  {
    var first := Meta(ixs[0].program, false, false);
    assert forall u :: u in AccountUses(ixs) <==> u == first || u in ixs[0].accounts || u in AccountUses(ixs[1..]);
    assert first.key == ixs[0].program;
  }

  lemma {:induction false} IxsReachable(m: Message, ixs: seq<CompiledIx>)
    ensures DecompileIxs(m, ixs).Some? ==> KeySet(AccountUses(DecompileIxs(m, ixs).value)) <= Reachable(m)
  {
    if ixs != [] && DecompileIxs(m, ixs).Some? {
      MetaReachable(m, ixs[0].program);
      MetasReachable(m, ixs[0].accounts);
      IxsReachable(m, ixs[1..]);
      var out := DecompileIxs(m, ixs).value;
      assert out[1..] == DecompileIxs(m, ixs[1..]).value;
      UsesSplit(out);
    }
  }

  lemma KeySetCons(m: Meta, rest: seq<Meta>)
    ensures KeySet([m] + rest) == {m.key} + KeySet(rest)
  {
    assert forall u :: u in [m] + rest <==> u == m || u in rest;
  }

  lemma {:induction false} LiftKeys(us: seq<Meta>, accounts: seq<Meta>)
    ensures |Lift(us, accounts)| == |accounts| && KeySet(Lift(us, accounts)) == KeySet(accounts)
  {
    if accounts != [] {
      LiftKeys(us, accounts[1..]);
      KeySetCons(accounts[0], accounts[1..]);
      KeySetCons(Joined(us, accounts[0].key), Lift(us, accounts[1..]));
      assert accounts == [accounts[0]] + accounts[1..];
    }
  }

  lemma {:induction false} LiftIxsKeys(us: seq<Meta>, ixs: seq<Instruction>)
    ensures KeySet(AccountUses(LiftIxs(us, ixs))) == KeySet(AccountUses(ixs))
    ensures forall i :: 0 <= i < |ixs| ==>
      |LiftIxs(us, ixs)[i].accounts| == |ixs[i].accounts| && LiftIxs(us, ixs)[i].data == ixs[i].data
  {
    if ixs != [] {
      LiftIxsKeys(us, ixs[1..]);
      LiftKeys(us, ixs[0].accounts);
      UsesSplit(ixs);
      UsesSplit(LiftIxs(us, ixs));
      assert LiftIxs(us, ixs)[1..] == LiftIxs(us, ixs[1..]);
    }
  }

  lemma {:induction false} DecompiledFit(m: Message, ixs: seq<CompiledIx>)
    requires AllSized(ixs)
    ensures DecompileIxs(m, ixs).Some? ==>
      forall i :: 0 <= i < |ixs| ==> IxFits(DecompileIxs(m, ixs).value[i])
  {
    if ixs != [] && DecompileIxs(m, ixs).Some? {
      assert IxSized(ixs[0]);
      DecompiledFit(m, ixs[1..]);
    }
  }

  /** Whatever is recovered has lengths below 65536. */
  lemma RecoveredFits(bs: seq<Byte>, us: seq<Meta>, ixs: seq<Instruction>)
    requires Recover(bs).Some? && Recover(bs).value.ixs == LiftIxs(us, ixs)
    ensures AllFit(ixs)
  {
    var m := Parse(bs).value;
    DecompiledFit(m, m.ixs);
    LiftIxsKeys(us, ixs);
    forall i | 0 <= i < |ixs|
      ensures IxFits(ixs[i])
    {
      assert IxFits(Recover(bs).value.ixs[i]);
    }
  }

  /** Whatever is recovered names at most 256 keys. */
  lemma RecoveredTableSize(bs: seq<Byte>, payer: Pubkey, ixs: seq<Instruction>, blockhash: Pubkey)
    requires Recover(bs) == Some(Meaning(payer, ixs, blockhash))
    ensures |AccountTable(payer, ixs)| <= 256
  {
    var m, us, table := Parse(bs).value, Uses(payer, ixs), AccountTable(payer, ixs);
    AccountTableCorrect(payer, ixs);
    DistinctKeySet(table);
    MetaReachable(m, 0);
    IxsReachable(m, m.ixs);
    LiftIxsKeys(us, ixs);
    KeySetCons(Meta(payer, true, true), AccountUses(ixs));
    forall k | k in KeySet(table)
      ensures k in Reachable(m)
    {
      var e :| e in table && e.key == k;
      assert Mentions(us, e.key);
      assert k in KeySet(us);
    }
    ElementsBound(if |m.keys| <= 256 then m.keys else m.keys[..256]);
    SubsetSize(KeySet(table), Reachable(m));
  }

  lemma FirstByte(payer: Pubkey, ixs: seq<Instruction>, blockhash: Pubkey)
    ensures var bs := MessageBytes(payer, ixs, blockhash);
      bs != [] && bs[0] == SignerCount(AccountTable(payer, ixs)) % 256
  {
  }

  lemma PayerSigns(m: Message)
    requires MetaAt(m, 0).Some? && MetaAt(m, 0).value.signer
    ensures m.signers > 0
  {
  }

  lemma SignerByteNotZero(bs: seq<Byte>, payer: Pubkey, ixs: seq<Instruction>, blockhash: Pubkey)
    requires Recover(bs) == Some(Meaning(payer, ixs, blockhash))
    ensures bs != [] && bs[0] > 0
  {
    PayerSigns(Parse(bs).value);
  }

  lemma SmallTableFits(table: seq<Meta>)
    requires |table| <= 256 && SignerCount(table) % 256 > 0
    ensures TableFits(table)
  {
    ClassSizes(table);
  }

  /** A payer recovered as a signer means that the count of signers did not wrap. */
  lemma RecoveredTableFits(payer: Pubkey, ixs: seq<Instruction>, blockhash: Pubkey)
    requires Recover(MessageBytes(payer, ixs, blockhash)) == Some(Meaning(payer, ixs, blockhash))
    ensures TableFits(AccountTable(payer, ixs))
  {
    var bs, table := MessageBytes(payer, ixs, blockhash), AccountTable(payer, ixs);
    RecoveredTableSize(bs, payer, ixs, blockhash);
    SignerByteNotZero(bs, payer, ixs, blockhash);
    FirstByte(payer, ixs, blockhash);
    SmallTableFits(table);
  }

  /**
   * Meaning is preserved exactly when the casts fit: the bytes decompile to the payer, the
   * blockhash and every instruction with its program, its accounts in order at their joined
   * privileges and its data, if and only if at most 256 accounts are named, at most 255 of
   * them sign, and every length is below 65536.
   */
  lemma RecoverIffFits(payer: Pubkey, ixs: seq<Instruction>, blockhash: Pubkey)
    ensures Recover(MessageBytes(payer, ixs, blockhash)) == Some(Meaning(payer, ixs, blockhash))
            <==> Fits(payer, ixs)
  {
    if Fits(payer, ixs) {
      RecoveredWhenFits(payer, ixs, blockhash);
    }
    if Recover(MessageBytes(payer, ixs, blockhash)) == Some(Meaning(payer, ixs, blockhash)) {
      RecoveredFits(MessageBytes(payer, ixs, blockhash), Uses(payer, ixs), ixs);
      RecoveredTableFits(payer, ixs, blockhash);
    }
  }

  /** Equal messages mean the same: the encoding is injective up to joining privileges. */
  lemma MessageDeterminesMeaning(
      payer1: Pubkey, ixs1: seq<Instruction>, hash1: Pubkey,
      payer2: Pubkey, ixs2: seq<Instruction>, hash2: Pubkey)
    requires Fits(payer1, ixs1) && Fits(payer2, ixs2)
    requires MessageBytes(payer1, ixs1, hash1) == MessageBytes(payer2, ixs2, hash2)
    ensures Meaning(payer1, ixs1, hash1) == Meaning(payer2, ixs2, hash2)
  {
    RecoverIffFits(payer1, ixs1, hash1);
    RecoverIffFits(payer2, ixs2, hash2);
  }

  /** A concrete input beyond the casts: 65536 bytes of data are not recovered. */
  lemma LongDataIsLost(payer: Pubkey, blockhash: Pubkey)
    ensures var ixs := [Instruction(payer, [], seq(U16, _ => 0))];
      Recover(MessageBytes(payer, ixs, blockhash)) != Some(Meaning(payer, ixs, blockhash))
  {
    var ixs := [Instruction(payer, [], seq(U16, _ => 0))];
    RecoverIffFits(payer, ixs, blockhash);
    assert !IxFits(ixs[0]);
  }
}
