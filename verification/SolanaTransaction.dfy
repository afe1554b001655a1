/**
 * The transaction builder in its own imperative form, proved against the functions that
 * specify it, the signature section of a whole transaction, and the search for a
 * program-derived address. Ed25519 and SHA-256 are parameters.
 */
module SolanaTransaction {
  import opened Bytes
  import opened Collections
  import opened Options
  import opened SolanaAccounts
  import opened SolanaWire
  import opened SolanaMessage
  import CompactU16

  type Signature = s: seq<Byte> | |s| == 64 witness seq(64, _ => 0)

  // ----- Building -----

  lemma {:induction false} EnsureAllConcat(table: seq<Meta>, a: seq<Meta>, b: seq<Meta>)
    ensures EnsureAll(table, a + b) == EnsureAll(EnsureAll(table, a), b)
  {
    if b == [] {
      assert a + b == a;
    } else {
      var front, last := b[..|b| - 1], b[|b| - 1];
      EnsureAllConcat(table, a, front);
      assert (a + b)[..|a + b| - 1] == a + front;
    }
  }

  method AddAccounts(accountMap: seq<Meta>, accounts: seq<Meta>) returns (r: seq<Meta>)
    ensures r == EnsureAll(accountMap, accounts)
  {
    r := accountMap;
    for j := 0 to |accounts|
      invariant r == EnsureAll(accountMap, accounts[..j])
    {
      assert accounts[..j + 1][..j] == accounts[..j];
      r := EnsureAccount(r, accounts[j]);
    }
    assert accounts[..|accounts|] == accounts;
  }

  lemma EnsureAllTwice(seen: seq<Meta>, a: seq<Meta>, b: seq<Meta>)
    ensures EnsureAll(EnsureAll(EnsureAll([], seen), a), b) == EnsureAll([], seen + a + b)
  {
    EnsureAllConcat([], seen, a);
    EnsureAllConcat([], seen + a, b);
  }

  lemma AccountUsesStep(seen: seq<Meta>, program: seq<Meta>, ixs: seq<Instruction>, i: nat)
    requires i < |ixs| && program == [Meta(ixs[i].program, false, false)]
    ensures seen + AccountUses(ixs[i..]) == seen + program + ixs[i].accounts + AccountUses(ixs[i + 1..])
  {
    assert ixs[i..][1..] == ixs[i + 1..];
    assert AccountUses(ixs[i..]) == program + ixs[i].accounts + AccountUses(ixs[i + 1..]);
  }

  method CollectAccounts(payer: Pubkey, ixs: seq<Instruction>) returns (accountMap: seq<Meta>)
    ensures accountMap == EnsureAll([], Uses(payer, ixs))
  {
    ghost var seen := [Meta(payer, true, true)];
    accountMap := AddAccounts([], [Meta(payer, true, true)]);
    for i := 0 to |ixs|
      invariant accountMap == EnsureAll([], seen)
      invariant seen + AccountUses(ixs[i..]) == Uses(payer, ixs)
    {
      var ix := ixs[i];
      var program := [Meta(ix.program, false, false)];
      accountMap := AddAccounts(accountMap, program);
      accountMap := AddAccounts(accountMap, ix.accounts);
      EnsureAllTwice(seen, program, ix.accounts);
      AccountUsesStep(seen, program, ixs, i);
      seen := seen + program + ix.accounts;
    }
    assert AccountUses(ixs[|ixs|..]) == [] && seen + [] == seen;
  }

  method AppendIndices(msg: seq<Byte>, table: seq<Meta>, accounts: seq<Meta>) returns (out: seq<Byte>)
    ensures out == msg + Indices(table, accounts)
  {
    out := msg;
    for j := 0 to |accounts|
      invariant out + Indices(table, accounts[j..]) == msg + Indices(table, accounts)
    {
      assert accounts[j..][1..] == accounts[j + 1..];
      out := out + [IndexOf(table, accounts[j].key)];
    }
    assert Indices(table, accounts[|accounts|..]) == [];
  }

  method AppendIx(msg: seq<Byte>, table: seq<Meta>, ix: Instruction) returns (out: seq<Byte>)
    ensures out == msg + SerializeIx(CompileIx(table, ix))
  {
    out := msg + [IndexOf(table, ix.program)];
    out := out + CompactU16.Encode(|ix.accounts|);
    out := AppendIndices(out, table, ix.accounts);
    out := out + CompactU16.Encode(|ix.data|);
    out := out + ix.data;
    ghost var c := CompileIx(table, ix);
    assert out == msg + [c.program] + CompactU16.Encode(|c.accounts|) + c.accounts
      + CompactU16.Encode(|c.data|) + c.data;
  }

  lemma StepIxs(table: seq<Meta>, ixs: seq<Instruction>)
    requires ixs != []
    ensures SerializeIxs(CompileIxs(table, ixs))
            == SerializeIx(CompileIx(table, ixs[0])) + SerializeIxs(CompileIxs(table, ixs[1..]))
  {
    assert CompileIxs(table, ixs)[1..] == CompileIxs(table, ixs[1..]);
  }

  method AppendIxs(msg: seq<Byte>, table: seq<Meta>, ixs: seq<Instruction>) returns (out: seq<Byte>)
    ensures out == msg + SerializeIxs(CompileIxs(table, ixs))
  {
    out := msg;
    for i := 0 to |ixs|
      invariant out + SerializeIxs(CompileIxs(table, ixs[i..])) == msg + SerializeIxs(CompileIxs(table, ixs))
    {
      ghost var now, later := SerializeIx(CompileIx(table, ixs[i])), SerializeIxs(CompileIxs(table, ixs[i + 1..]));
      assert ixs[i..][1..] == ixs[i + 1..];
      StepIxs(table, ixs[i..]);
      assert out + (now + later) == (out + now) + later;
      out := AppendIx(out, table, ixs[i]);
    }
    assert SerializeIxs(CompileIxs(table, ixs[|ixs|..])) == [];
  }

  method AppendKeys(msg: seq<Byte>, table: seq<Meta>) returns (out: seq<Byte>)
    ensures out == msg + SerializeKeys(KeysOf(table))
  {
    out := msg;
    for i := 0 to |table|
      invariant out + SerializeKeys(KeysOf(table[i..])) == msg + SerializeKeys(KeysOf(table))
    {
      assert table[i..][1..] == table[i + 1..];
      assert KeysOf(table[i..])[1..] == KeysOf(table[i + 1..]);
      out := out + table[i].key;
    }
    assert SerializeKeys(KeysOf(table[|table|..])) == [];
  }

  lemma Assembled(m: Message)
    ensures Serialize(m) ==
      [m.signers, m.readonlySigners, m.readonlyOthers] + CompactU16.Encode(|m.keys|) + SerializeKeys(m.keys)
      + m.blockhash + CompactU16.Encode(|m.ixs|) + SerializeIxs(m.ixs)
  {
  }

  method BuildMessage(payer: Pubkey, ixs: seq<Instruction>, blockhash: Pubkey) returns (msg: seq<Byte>)
    ensures msg == MessageBytes(payer, ixs, blockhash)
  {
    var accountMap := CollectAccounts(payer, ixs);
    accountMap := SortByClass(accountMap);
    var header := [SignerCount(accountMap) % 256, |OfClass(accountMap, 1)| % 256, |OfClass(accountMap, 3)| % 256];
    msg := header + CompactU16.Encode(|accountMap|);
    msg := AppendKeys(msg, accountMap);
    msg := msg + blockhash;
    msg := msg + CompactU16.Encode(|ixs|);
    msg := AppendIxs(msg, accountMap, ixs);
    Assembled(Compile(payer, ixs, blockhash));
  }

  function TransactionBytes(
      payer: Pubkey, ixs: seq<Instruction>, blockhash: Pubkey, sign: seq<Byte> -> Signature): seq<Byte>
  {
    var msg := MessageBytes(payer, ixs, blockhash);
    CompactU16.Encode(1) + sign(msg) + msg
  }

  /** `build_transaction`: one signature, over the message, in front of the message. */
  method BuildTransaction(
      ixs: seq<Instruction>, payer: Pubkey, sign: seq<Byte> -> Signature, blockhash: Pubkey)
    returns (tx: seq<Byte>)
    ensures tx == TransactionBytes(payer, ixs, blockhash, sign)
  {
    var msg := BuildMessage(payer, ixs, blockhash);
    var sig := sign(msg);
    tx := CompactU16.Encode(1);
    tx := tx + sig;
    tx := tx + msg;
  }

  // ----- Reading a whole transaction -----

  function ParseSignatures(bs: seq<Byte>, n: nat): Option<(seq<Signature>, seq<Byte>)>
    decreases n
  {
    if n == 0 then Some(([], bs))
    else
      var (s, rest) :- Take(bs, 64);
      var (ss, rest') :- ParseSignatures(rest, n - 1);
      Some(([s] + ss, rest'))
  }

  /** The signatures and the message they are for. */
  function ParseTransaction(bs: seq<Byte>): Option<(seq<Signature>, Message)> {
    var (n, rest) :- CompactU16.Decode(bs);
    var (ss, msg) :- ParseSignatures(rest, n);
    var m :- Parse(msg);
    Some((ss, m))
  }

  ghost predicate OnlyPayerSigns(payer: Pubkey, ixs: seq<Instruction>) {
    forall u :: u in AccountUses(ixs) && u.signer ==> u.key == payer
  }

  lemma SignersAreFirst(payer: Pubkey, ixs: seq<Instruction>)
    ensures SignerCount(AccountTable(payer, ixs)) >= 1
    ensures SignerCount(AccountTable(payer, ixs)) == 1 <==> OnlyPayerSigns(payer, ixs)
  {
    var us, table := Uses(payer, ixs), AccountTable(payer, ixs);
    AccountTableCorrect(payer, ixs);
    ClassSizes(table);
    PlaceGivesPrivileges(table, 0);
    assert forall u :: u in us <==> u == Meta(payer, true, true) || u in AccountUses(ixs);
    if SignerCount(table) > 1 {
      PlaceGivesPrivileges(table, 1);
      assert table[1] in table && table[1] == Joined(us, table[1].key);
      var u :| u in us && u.key == table[1].key && u.signer;
      assert u.key != payer;
    } else {
      forall u | u in AccountUses(ixs) && u.signer
        ensures u.key == payer
      {
        assert Mentions(table, u.key) && UsedSigner(us, u.key);
        var m :| m in table && m.key == u.key;
        var i :| 0 <= i < |table| && table[i] == m;
        PlaceGivesPrivileges(table, i);
      }
    }
  }

  lemma ParseOneSignature(sig: Signature, rest: seq<Byte>)
    ensures ParseSignatures(sig + rest, 1) == Some(([sig], rest))
  {
    TakeConcat(sig, rest);
    var none: seq<Signature> := [];
    assert ParseSignatures(rest, 0) == Some((none, rest));
    assert [sig] + none == [sig];
  }

  lemma ReadsBack(m: Message, sig: Signature)
    requires Sized(m)
    ensures ParseTransaction(CompactU16.Encode(1) + sig + Serialize(m)) == Some(([sig], m))
  {
    var msg := Serialize(m);
    ParseSerialize(m);
    CompactU16.DecodeEncode(1, sig + msg);
    assert CompactU16.Encode(1) + sig + msg == CompactU16.Encode(1) + (sig + msg);
    ParseOneSignature(sig, msg);
  }

  /** The transaction reads back as one signature, over the message, and that message. */
  lemma TransactionReadsBack(payer: Pubkey, ixs: seq<Instruction>, blockhash: Pubkey, sign: seq<Byte> -> Signature)
    requires Fits(payer, ixs)
    ensures ParseTransaction(TransactionBytes(payer, ixs, blockhash, sign))
            == Some(([sign(MessageBytes(payer, ixs, blockhash))], Compile(payer, ixs, blockhash)))
  {
    CompiledSized(AccountTable(payer, ixs), ixs);
    ReadsBack(Compile(payer, ixs, blockhash), sign(MessageBytes(payer, ixs, blockhash)));
  }

  lemma SignerByte(m: Message, table: seq<Meta>)
    requires HasTable(m, table) && TableFits(table)
    ensures m.signers == SignerCount(table)
  {
  }

  /** One signature is what the message's header asks for exactly when nobody but the payer signs. */
  lemma OneSignatureSuffices(payer: Pubkey, ixs: seq<Instruction>, blockhash: Pubkey)
    requires Fits(payer, ixs)
    ensures Compile(payer, ixs, blockhash).signers == 1 <==> OnlyPayerSigns(payer, ixs)
  {
    SignersAreFirst(payer, ixs);
    SignerByte(Compile(payer, ixs, blockhash), AccountTable(payer, ixs));
  }

  // ----- Program-derived addresses -----

  /** `b"ProgramDerivedAddress"`. */
  const MARKER: seq<Byte> :=
    [80, 114, 111, 103, 114, 97, 109, 68, 101, 114, 105, 118, 101, 100, 65, 100, 100, 114, 101, 115, 115]

  function Preimage(seeds: seq<seq<Byte>>, nonce: Byte, program: Pubkey): seq<Byte> {
    Flatten(seeds) + [nonce] + program + MARKER
  }

  /** The bytes of the text, one for each character. */
  predicate Spells(bs: seq<Byte>, text: string) {
    |bs| == |text| && forall i :: 0 <= i < |bs| ==> bs[i] == text[i] as int
  }

  /** The seeds, the nonce, the program and the marker, each at its place in what is hashed. */
  predicate LaidOut(input: seq<Byte>, seeds: seq<seq<Byte>>, nonce: Byte, program: Pubkey) {
    var n := |Flatten(seeds)|;
    && |input| == n + 33 + 21
    && input[..n] == Flatten(seeds)
    && input[n] == nonce
    && input[n + 1..n + 33] == program
    && Spells(input[n + 33..], "ProgramDerivedAddress")
  }

  lemma MarkerSpelled()
    ensures Spells(MARKER, "ProgramDerivedAddress")
  {
  }

  lemma PartsLaidOut(seeds: seq<Byte>, nonce: Byte, program: Pubkey, marker: seq<Byte>)
    ensures var (input, n) := (seeds + [nonce] + program + marker, |seeds|);
      && |input| == n + 33 + |marker|
      && input[..n] == seeds && input[n] == nonce && input[n + 1..n + 33] == program && input[n + 33..] == marker
  {
  }

  /** Which string is hashed for a nonce. */
  lemma PreimageLaidOut(seeds: seq<seq<Byte>>, nonce: Byte, program: Pubkey)
    ensures LaidOut(Preimage(seeds, nonce, program), seeds, nonce, program)
  {
    MarkerSpelled();
    PartsLaidOut(Flatten(seeds), nonce, program, MARKER);
  }

  /**
   * `find_pda`: the highest nonce whose hash is off the curve, with that hash. `None` is the
   * panic, which happens only when all 256 hashes are on the curve.
   */
  method FindPda(
      seeds: seq<seq<Byte>>, program: Pubkey,
      sha256: seq<Byte> -> Pubkey, onCurve: Pubkey -> bool)
    returns (r: Option<(Pubkey, Byte)>)
    ensures r.Some? ==>
      && r.value.0 == sha256(Preimage(seeds, r.value.1, program))
      && !onCurve(r.value.0)
      && forall n: Byte :: r.value.1 < n ==> onCurve(sha256(Preimage(seeds, n, program)))
    ensures forall n: Byte :: LaidOut(Preimage(seeds, n, program), seeds, n, program)
    ensures r.None? <==> forall n: Byte :: onCurve(sha256(Preimage(seeds, n, program)))
  {
    forall n: Byte
      ensures LaidOut(Preimage(seeds, n, program), seeds, n, program)
    {
      PreimageLaidOut(seeds, n, program);
    }
    var nonce := 256;
    while nonce > 0
      invariant 0 <= nonce <= 256
      invariant forall n: Byte :: nonce <= n ==> onCurve(sha256(Preimage(seeds, n, program)))
    {
      nonce := nonce - 1;
      var input := [];
      for i := 0 to |seeds|
        invariant input == Flatten(seeds[..i])
      {
        FlattenStep(seeds, i);
        input := input + seeds[i];
      }
      assert seeds[..|seeds|] == seeds;
      input := input + [nonce];
      input := input + program;
      input := input + MARKER;
      assert input == Preimage(seeds, nonce, program);
      var hash := sha256(input);
      if !onCurve(hash) {
        return Some((hash, nonce));
      }
    }
    return None;
  }
}
