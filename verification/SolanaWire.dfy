/**
 * The wire form of a compiled Solana message: the bytes the builder emits, and a
 * strict reader of them.
 */
module SolanaWire {
  import opened Bytes
  import opened Collections
  import opened Machine
  import opened Options
  import opened SolanaAccounts
  import CompactU16

  datatype CompiledIx = CompiledIx(program: Byte, accounts: seq<Byte>, data: seq<Byte>)

  datatype Message = Message(
    signers: Byte,
    readonlySigners: Byte,
    readonlyOthers: Byte,
    keys: seq<Pubkey>,
    blockhash: Pubkey,
    ixs: seq<CompiledIx>)

  // ----- The encoder -----

  function SerializeKeys(keys: seq<Pubkey>): seq<Byte> {
    if keys == [] then [] else keys[0] + SerializeKeys(keys[1..])
  }

  function SerializeIx(ix: CompiledIx): seq<Byte> {
    [ix.program]
    + CompactU16.Encode(|ix.accounts|) + ix.accounts
    + CompactU16.Encode(|ix.data|) + ix.data
  }

  function SerializeKeyTable(keys: seq<Pubkey>): seq<Byte> {
    CompactU16.Encode(|keys|) + SerializeKeys(keys)
  }

  function SerializeIxs(ixs: seq<CompiledIx>): seq<Byte> {
    if ixs == [] then [] else SerializeIx(ixs[0]) + SerializeIxs(ixs[1..])
  }

  function SerializeIxTable(ixs: seq<CompiledIx>): seq<Byte> {
    CompactU16.Encode(|ixs|) + SerializeIxs(ixs)
  }

  function Serialize(m: Message): seq<Byte> {
    [m.signers, m.readonlySigners, m.readonlyOthers]
    + SerializeKeyTable(m.keys)
    + m.blockhash
    + SerializeIxTable(m.ixs)
  }

  // ----- The reader -----

  function Take(bs: seq<Byte>, n: nat): Option<(seq<Byte>, seq<Byte>)> {
    if |bs| < n then None else Some((bs[..n], bs[n..]))
  }

  /** A length followed by that many bytes. */
  function ParseVector(bs: seq<Byte>): (r: Option<(seq<Byte>, seq<Byte>)>)
    ensures r.Some? ==> |r.value.0| < U16
  {
    var (n, rest) :- CompactU16.Decode(bs);
    Take(rest, n)
  }

  function ParseKeys(bs: seq<Byte>, n: nat): (r: Option<(seq<Pubkey>, seq<Byte>)>)
    ensures r.Some? ==> |r.value.0| == n
    decreases n
  {
    if n == 0 then Some(([], bs))
    else
      var (k, rest) :- Take(bs, 32);
      var (ks, rest') :- ParseKeys(rest, n - 1);
      Some(([k] + ks, rest'))
  }

  /** Every length fits its compact-u16 prefix. */
  predicate IxSized(ix: CompiledIx) {
    |ix.accounts| < U16 && |ix.data| < U16
  }

  function ParseIx(bs: seq<Byte>): (r: Option<(CompiledIx, seq<Byte>)>)
    ensures r.Some? ==> IxSized(r.value.0)
  {
    if bs == [] then None
    else
      var (accounts, rest) :- ParseVector(bs[1..]);
      var (data, rest') :- ParseVector(rest);
      Some((CompiledIx(bs[0], accounts, data), rest'))
  }

  predicate AllSized(ixs: seq<CompiledIx>) {
    forall i :: 0 <= i < |ixs| ==> IxSized(ixs[i])
  }

  function ParseIxs(bs: seq<Byte>, n: nat): (r: Option<(seq<CompiledIx>, seq<Byte>)>)
    ensures r.Some? ==> |r.value.0| == n && AllSized(r.value.0)
    decreases n
  {
    if n == 0 then Some(([], bs))
    else
      var (ix, rest) :- ParseIx(bs);
      var (ixs, rest') :- ParseIxs(rest, n - 1);
      Some(([ix] + ixs, rest'))
  }

  predicate Sized(m: Message) {
    |m.keys| < U16 && |m.ixs| < U16 && AllSized(m.ixs)
  }

  function ParseKeyTable(bs: seq<Byte>): (r: Option<(seq<Pubkey>, seq<Byte>)>)
    ensures r.Some? ==> |r.value.0| < U16
  {
    var (n, rest) :- CompactU16.Decode(bs);
    ParseKeys(rest, n)
  }

  function ParseIxTable(bs: seq<Byte>): (r: Option<(seq<CompiledIx>, seq<Byte>)>)
    ensures r.Some? ==> |r.value.0| < U16 && AllSized(r.value.0)
  {
    var (n, rest) :- CompactU16.Decode(bs);
    ParseIxs(rest, n)
  }

  /** The whole message; anything left over is refused. */
  function Parse(bs: seq<Byte>): (r: Option<Message>)
    ensures r.Some? ==> Sized(r.value) && bs != [] && r.value.signers == bs[0]
  {
    if |bs| < 3 then None
    else
      var (keys, afterKeys) :- ParseKeyTable(bs[3..]);
      var (blockhash, afterHash) :- Take(afterKeys, 32);
      var (ixs, end) :- ParseIxTable(afterHash);
      if end == [] then Some(Message(bs[0], bs[1], bs[2], keys, blockhash, ixs)) else None
  }

  // ----- Reading back what was written -----

  lemma TakeConcat(a: seq<Byte>, rest: seq<Byte>)
    ensures Take(a + rest, |a|) == Some((a, rest))
  {
    assert (a + rest)[..|a|] == a && (a + rest)[|a|..] == rest;
  }

  lemma ParseVectorSerialized(v: seq<Byte>, rest: seq<Byte>)
    requires |v| < U16
    ensures ParseVector(CompactU16.Encode(|v|) + v + rest) == Some((v, rest))
  {
    CompactU16.DecodeEncode(|v|, v + rest);
    assert CompactU16.Encode(|v|) + v + rest == CompactU16.Encode(|v|) + (v + rest);
    TakeConcat(v, rest);
  }

  lemma {:induction false} ParseKeysSerialized(keys: seq<Pubkey>, rest: seq<Byte>)
    ensures ParseKeys(SerializeKeys(keys) + rest, |keys|) == Some((keys, rest))
  {
    if keys != [] {
      var tail := SerializeKeys(keys[1..]) + rest;
      assert SerializeKeys(keys) + rest == keys[0] + tail;
      TakeConcat(keys[0], tail);
      ParseKeysSerialized(keys[1..], rest);
      assert [keys[0]] + keys[1..] == keys;
    } else {
      assert SerializeKeys(keys) + rest == rest;
    }
  }

  lemma ParseIxSerialized(ix: CompiledIx, rest: seq<Byte>)
    requires IxSized(ix)
    ensures ParseIx(SerializeIx(ix) + rest) == Some((ix, rest))
  {
    var data := CompactU16.Encode(|ix.data|) + ix.data + rest;
    var accounts := CompactU16.Encode(|ix.accounts|) + ix.accounts + data;
    assert SerializeIx(ix) + rest == [ix.program] + accounts;
    assert ([ix.program] + accounts)[1..] == accounts;
    ParseVectorSerialized(ix.accounts, data);
    ParseVectorSerialized(ix.data, rest);
  }

  lemma HeadAndTail(ixs: seq<CompiledIx>)
    requires ixs != []
    ensures [ixs[0]] + ixs[1..] == ixs && 1 + |ixs[1..]| == |ixs|
  {
  }

  lemma ParseIxsCons(bs: seq<Byte>, ix: CompiledIx, tail: seq<Byte>, ixs: seq<CompiledIx>, rest: seq<Byte>)
    requires ParseIx(bs) == Some((ix, tail)) && ParseIxs(tail, |ixs|) == Some((ixs, rest))
    ensures ParseIxs(bs, |ixs| + 1) == Some(([ix] + ixs, rest))
  {
  }

  lemma {:induction false} ParseIxsSerialized(ixs: seq<CompiledIx>, rest: seq<Byte>)
    requires AllSized(ixs)
    ensures ParseIxs(SerializeIxs(ixs) + rest, |ixs|) == Some((ixs, rest))
  {
    if ixs != [] {
      var ix, others := ixs[0], ixs[1..];
      var tail := SerializeIxs(others) + rest;
      assert AllSized(others) && IxSized(ix);
      ParseIxSerialized(ix, tail);
      ParseIxsSerialized(others, rest);
      ParseIxsCons(SerializeIx(ix) + tail, ix, tail, others, rest);
      ConcatAssociates(SerializeIx(ix), SerializeIxs(others), rest);
      HeadAndTail(ixs);
    } else {
      assert SerializeIxs(ixs) + rest == rest;
    }
  }

  lemma ParseKeyTableSerialized(keys: seq<Pubkey>, rest: seq<Byte>)
    requires |keys| < U16
    ensures ParseKeyTable(SerializeKeyTable(keys) + rest) == Some((keys, rest))
  {
    var tail := SerializeKeys(keys) + rest;
    assert SerializeKeyTable(keys) + rest == CompactU16.Encode(|keys|) + tail;
    CompactU16.DecodeEncode(|keys|, tail);
    ParseKeysSerialized(keys, rest);
  }

  lemma ParseIxTableSerialized(ixs: seq<CompiledIx>, rest: seq<Byte>)
    requires |ixs| < U16 && AllSized(ixs)
    ensures ParseIxTable(SerializeIxTable(ixs) + rest) == Some((ixs, rest))
  {
    var n, tail := |ixs|, SerializeIxs(ixs) + rest;
    assert SerializeIxTable(ixs) + rest == CompactU16.Encode(n) + tail;
    CompactU16.DecodeEncode(n, tail);
    assert CompactU16.Decode(SerializeIxTable(ixs) + rest) == Some((n, tail));
    assert ParseIxs(tail, n) == Some((ixs, rest)) by {
      ParseIxsSerialized(ixs, rest);
    }
  }

  /** The parts of a message, one after the other. */
  lemma ParseParts(m: Message, keyTable: seq<Byte>, ixTable: seq<Byte>)
    requires ParseKeyTable(keyTable + (m.blockhash + ixTable)) == Some((m.keys, m.blockhash + ixTable))
    requires ParseIxTable(ixTable) == Some((m.ixs, []))
    ensures Parse([m.signers, m.readonlySigners, m.readonlyOthers] + (keyTable + (m.blockhash + ixTable))) == Some(m)
  {
    var header, body := [m.signers, m.readonlySigners, m.readonlyOthers], keyTable + (m.blockhash + ixTable);
    assert (header + body)[3..] == body;
    TakeConcat(m.blockhash, ixTable);
  }

  /** Writing loses nothing as long as every length fits its prefix. */
  lemma ParseSerialize(m: Message)
    requires Sized(m)
    ensures Parse(Serialize(m)) == Some(m)
  {
    var header := [m.signers, m.readonlySigners, m.readonlyOthers];
    var keys, ixs := SerializeKeyTable(m.keys), SerializeIxTable(m.ixs);
    ParseKeyTableSerialized(m.keys, m.blockhash + ixs);
    ParseIxTableSerialized(m.ixs, []);
    assert ixs + [] == ixs;
    ParseParts(m, keys, ixs);
    ConcatAssociates(header + keys, m.blockhash, ixs);
    ConcatAssociates(header, keys, m.blockhash + ixs);
  }
}
