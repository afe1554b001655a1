/**
 * The EIP-1559 envelope (type 2 of EIP-2718): `0x02` followed by the RLP list of the
 * fields, unsigned for the signing hash and with the signature for the raw transaction.
 * Keccak-256 and secp256k1 signing are parameters.
 */
module Eip1559 {
  import opened Bytes
  import opened Collections
  import opened Machine
  import opened Options
  import opened Rlp

  type Address = a: seq<Byte> | |a| == 20 witness seq(20, _ => 0)

  /** A Rust slice of bytes: never more than `isize::MAX` of them. */
  type Slice = s: seq<Byte> | |s| < 0x8000_0000_0000_0000

  datatype Fields = Fields(
    chainId: Uint64,
    nonce: Uint64,
    maxPriorityFee: Uint64,
    maxFee: Uint64,
    gasLimit: Uint64,
    to: Address,
    value: Uint64,
    data: Slice)

  datatype Signature = Signature(v: Byte, r: Bytes32, s: Bytes32)

  const TYPE: Byte := 0x02

  // ----- The builder -----

  function UnsignedItems(f: Fields): (items: seq<seq<Byte>>)
    ensures |items| == 9
  {
    [ EncodeUint(f.chainId),
      EncodeUint(f.nonce),
      EncodeUint(f.maxPriorityFee),
      EncodeUint(f.maxFee),
      EncodeUint(f.gasLimit),
      EncodeBytes(f.to),
      EncodeUint(f.value),
      EncodeBytes(f.data),
      EncodeList([]) ]
  }

  function SignatureItems(sig: Signature): (items: seq<seq<Byte>>)
    ensures |items| == 3
  {
    [EncodeUint(sig.v), EncodeBytes(sig.r), EncodeBytes(sig.s)]
  }

  function SigningInput(f: Fields): seq<Byte> {
    [TYPE] + EncodeList(UnsignedItems(f))
  }

  function RawTransaction(f: Fields, sig: Signature): seq<Byte> {
    [TYPE] + EncodeList(UnsignedItems(f) + SignatureItems(sig))
  }

  // ----- The list it stands for -----

  function UnsignedTree(f: Fields): (items: seq<Item>)
    ensures |items| == 9
  {
    [ Str(UintBytes(f.chainId)),
      Str(UintBytes(f.nonce)),
      Str(UintBytes(f.maxPriorityFee)),
      Str(UintBytes(f.maxFee)),
      Str(UintBytes(f.gasLimit)),
      Str(f.to),
      Str(UintBytes(f.value)),
      Str(f.data),
      List([]) ]
  }

  function SignatureTree(sig: Signature): (items: seq<Item>)
    ensures |items| == 3
  {
    [Str(UintBytes(sig.v)), Str(sig.r), Str(sig.s)]
  }

  // ----- A reader of the list -----

  function ReadUint(x: Item): Option<Uint64> {
    if x.Str? && FromBe(x.bytes) < U64 then Some(FromBe(x.bytes)) else None
  }

  function ReadWord(x: Item): Option<Bytes32> {
    if x.Str? && |x.bytes| == 32 then Some(x.bytes) else None
  }

  function ReadFields(items: seq<Item>): Option<Fields>
    requires |items| >= 9
  {
    var chainId :- ReadUint(items[0]);
    var nonce :- ReadUint(items[1]);
    var maxPriorityFee :- ReadUint(items[2]);
    var maxFee :- ReadUint(items[3]);
    var gasLimit :- ReadUint(items[4]);
    var value :- ReadUint(items[6]);
    if items[5].Str? && |items[5].bytes| == 20
      && items[7].Str? && |items[7].bytes| < 0x8000_0000_0000_0000
      && items[8] == List([])
    then Some(Fields(chainId, nonce, maxPriorityFee, maxFee, gasLimit, items[5].bytes, value, items[7].bytes))
    else None
  }

  function ReadSignature(items: seq<Item>): Option<Signature>
    requires |items| == 3
  {
    var v :- ReadUint(items[0]);
    var r :- ReadWord(items[1]);
    var s :- ReadWord(items[2]);
    if v < 256 then Some(Signature(v, r, s)) else None
  }

  /** The items of an envelope's list. */
  function ReadEnvelope(bs: seq<Byte>): Option<seq<Item>> {
    if bs == [] || bs[0] != 0x02 then None
    else
      var (x, rest) :- Decode(bs[1..]);
      if x.List? && rest == [] then Some(x.items) else None
  }

  function ReadUnsigned(bs: seq<Byte>): Option<Fields> {
    var items :- ReadEnvelope(bs);
    if |items| == 9 then ReadFields(items) else None
  }

  function ReadSigned(bs: seq<Byte>): Option<(Fields, Signature)> {
    var items :- ReadEnvelope(bs);
    if |items| != 12 then None
    else
      var f :- ReadFields(items[..9]);
      var sig :- ReadSignature(items[9..]);
      Some((f, sig))
  }

  // ----- The envelope holds the list -----

  /** Items encoded one by one are the encoding of the trees they stand for. */
  lemma {:induction false} FlattenEncodesAll(items: seq<seq<Byte>>, trees: seq<Item>)
    requires |items| == |trees|
    requires forall i :: 0 <= i < |items| ==> items[i] == Encode(trees[i])
    ensures Flatten(items) == EncodeAll(trees)
  {
    if items != [] {
      FlattenEncodesAll(items[1..], trees[1..]);
    }
  }

  lemma {:induction false} AllFitFromEach(items: seq<Item>)
    requires forall i :: 0 <= i < |items| ==> Fits(items[i])
    ensures AllFit(items)
  {
    if items != [] {
      AllFitFromEach(items[1..]);
    }
  }

  lemma {:induction false} EncodeAllBound(items: seq<Item>)
    requires forall i :: 0 <= i < |items| ==> |Encode(items[i])| <= 41
    ensures |EncodeAll(items)| <= 41 * |items|
  {
    if items != [] {
      EncodeAllBound(items[1..]);
    }
  }

  lemma {:induction false} EncodeAllConcat(a: seq<Item>, b: seq<Item>)
    ensures EncodeAll(a + b) == EncodeAll(a) + EncodeAll(b)
  {
    if a == [] {
      assert a + b == b;
    } else {
      assert (a + b)[1..] == a[1..] + b;
      EncodeAllConcat(a[1..], b);
    }
  }

  /** The item is the encoding of the tree, at most `bound` bytes of it. */
  predicate Matches(item: seq<Byte>, tree: Item, bound: nat) {
    item == Encode(tree) && Fits(tree) && |item| <= bound
  }

  lemma UintMatches(n: Uint64)
    ensures Matches(EncodeUint(n), Str(UintBytes(n)), 41)
    ensures ReadUint(Str(UintBytes(n))) == Some(n)
  {
    UintIsString(n);
  }

  lemma BytesMatch(data: Slice)
    ensures Matches(EncodeBytes(data), Str(data), |data| + 9)
  {
  }

  lemma EmptyListMatches()
    ensures Matches(EncodeList([]), List([]), 41)
  {
    assert EncodeAll([]) == Flatten([]) == [];
  }

  lemma UnsignedEncoded(f: Fields, i: nat)
    requires i < 9
    ensures Matches(UnsignedItems(f)[i], UnsignedTree(f)[i], if i == 7 then |f.data| + 9 else 41)
  {
    UintMatches(f.chainId);
    UintMatches(f.nonce);
    UintMatches(f.maxPriorityFee);
    UintMatches(f.maxFee);
    UintMatches(f.gasLimit);
    BytesMatch(f.to);
    UintMatches(f.value);
    BytesMatch(f.data);
    EmptyListMatches();
  }

  lemma SignatureEncoded(sig: Signature, i: nat)
    requires i < 3
    ensures Matches(SignatureItems(sig)[i], SignatureTree(sig)[i], 41)
  {
    UintMatches(sig.v);
    BytesMatch(sig.r);
    BytesMatch(sig.s);
  }

  lemma UnsignedPayloadBound(f: Fields)
    ensures |EncodeAll(UnsignedTree(f))| <= |f.data| + 9 + 8 * 41
  {
    var t := UnsignedTree(f);
    forall i | 0 <= i < 9
      ensures i != 7 ==> |Encode(t[i])| <= 41
      ensures i == 7 ==> |Encode(t[i])| <= |f.data| + 9
    {
      UnsignedEncoded(f, i);
    }
    EncodeAllBound(t[..7]);
    EncodeAllBound(t[8..]);
    EncodeAllConcat(t[..7], [t[7]]);
    EncodeAllConcat(t[..8], t[8..]);
    assert t[..7] + [t[7]] == t[..8] && t[..8] + t[8..] == t;
    assert EncodeAll([t[7]]) == Encode(t[7]) + EncodeAll([]);
  }

  lemma EnvelopeHolds(items: seq<seq<Byte>>, trees: seq<Item>)
    requires |items| == |trees| && |EncodeAll(trees)| < U64
    requires forall i :: 0 <= i < |items| ==> items[i] == Encode(trees[i]) && Fits(trees[i])
    ensures var bs := [TYPE] + EncodeList(items);
      bs[0] == 2 && Decode(bs[1..]) == Some((List(trees), []))
  {
    FlattenEncodesAll(items, trees);
    AllFitFromEach(trees);
    DecodeEncode(List(trees), []);
    var bs := [TYPE] + EncodeList(items);
    assert bs[1..] == Encode(List(trees)) + [];
  }

  /** A string without leading zeros that denotes the number. */
  predicate Denotes(x: Item, n: nat) {
    x.Str? && Minimal(x.bytes) && FromBe(x.bytes) == n
  }

  /** The nine fields, each at its place. */
  predicate HoldsFields(items: seq<Item>, f: Fields) {
    && |items| >= 9
    && Denotes(items[0], f.chainId)
    && Denotes(items[1], f.nonce)
    && Denotes(items[2], f.maxPriorityFee)
    && Denotes(items[3], f.maxFee)
    && Denotes(items[4], f.gasLimit)
    && items[5] == Str(f.to)
    && Denotes(items[6], f.value)
    && items[7] == Str(f.data)
    && items[8] == List([])
  }

  lemma UintDenotes(n: Uint64)
    ensures Denotes(Str(UintBytes(n)), n)
  {
    UintIsString(n);
  }

  lemma TreeHoldsFields(f: Fields)
    ensures HoldsFields(UnsignedTree(f), f)
  {
    UintDenotes(f.chainId);
    UintDenotes(f.nonce);
    UintDenotes(f.maxPriorityFee);
    UintDenotes(f.maxFee);
    UintDenotes(f.gasLimit);
    UintDenotes(f.value);
  }

  /** What is hashed for signing: the byte 2, and the list of exactly the nine fields in order. */
  lemma SigningInputHolds(f: Fields)
    ensures SigningInput(f) != [] && SigningInput(f)[0] == 2
    ensures Decode(SigningInput(f)[1..]) == Some((List(UnsignedTree(f)), []))
    ensures |UnsignedTree(f)| == 9 && HoldsFields(UnsignedTree(f), f)
    ensures ReadEnvelope(SigningInput(f)) == Some(UnsignedTree(f))
  {
    TreeHoldsFields(f);
    forall i | 0 <= i < 9
      ensures UnsignedItems(f)[i] == Encode(UnsignedTree(f)[i]) && Fits(UnsignedTree(f)[i])
    {
      UnsignedEncoded(f, i);
    }
    UnsignedPayloadBound(f);
    EnvelopeHolds(UnsignedItems(f), UnsignedTree(f));
  }

  /** The signature, each part at its place. */
  predicate HoldsSignature(items: seq<Item>, sig: Signature) {
    |items| == 3 && Denotes(items[0], sig.v) && items[1] == Str(sig.r) && items[2] == Str(sig.s)
  }

  lemma SignatureHeld(sig: Signature)
    ensures HoldsSignature(SignatureTree(sig), sig)
  {
    UintDenotes(sig.v);
  }

  lemma SignedEncoded(f: Fields, sig: Signature, i: nat)
    requires i < 12
    ensures var (items, trees) := (UnsignedItems(f) + SignatureItems(sig), UnsignedTree(f) + SignatureTree(sig));
      items[i] == Encode(trees[i]) && Fits(trees[i])
  {
    if i < 9 {
      UnsignedEncoded(f, i);
    } else {
      SignatureEncoded(sig, i - 9);
    }
  }

  lemma SignedPayloadBound(f: Fields, sig: Signature)
    ensures |EncodeAll(UnsignedTree(f) + SignatureTree(sig))| < U64
  {
    forall i | 0 <= i < 3
      ensures |Encode(SignatureTree(sig)[i])| <= 41
    {
      SignatureEncoded(sig, i);
    }
    UnsignedPayloadBound(f);
    EncodeAllBound(SignatureTree(sig));
    EncodeAllConcat(UnsignedTree(f), SignatureTree(sig));
  }

  /** The raw transaction: the byte 2, and the unsigned list followed by v, r and s. */
  lemma RawTransactionHolds(f: Fields, sig: Signature)
    ensures RawTransaction(f, sig) != [] && RawTransaction(f, sig)[0] == 2
    ensures Decode(RawTransaction(f, sig)[1..]) == Some((List(UnsignedTree(f) + SignatureTree(sig)), []))
    ensures HoldsFields(UnsignedTree(f), f) && HoldsSignature(SignatureTree(sig), sig)
    ensures ReadEnvelope(RawTransaction(f, sig)) == Some(UnsignedTree(f) + SignatureTree(sig))
    ensures ReadEnvelope(SigningInput(f)) == Some(UnsignedTree(f))
  {
    SigningInputHolds(f);
    SignatureHeld(sig);
    var items, trees := UnsignedItems(f) + SignatureItems(sig), UnsignedTree(f) + SignatureTree(sig);
    forall i | 0 <= i < 12
      ensures items[i] == Encode(trees[i]) && Fits(trees[i])
    {
      SignedEncoded(f, sig, i);
    }
    SignedPayloadBound(f, sig);
    EnvelopeHolds(items, trees);
  }

  /** `sign_eip1559`; `None` is a failure of the signer. */
  method Sign(f: Fields, keccak: seq<Byte> -> Bytes32, sign: Bytes32 -> Option<Signature>)
    returns (raw: Option<seq<Byte>>)
    ensures raw.None? <==> sign(keccak(SigningInput(f))).None?
    ensures raw.Some? ==> raw.value == RawTransaction(f, sign(keccak(SigningInput(f))).value)
    ensures raw.Some? ==>
      var sig := sign(keccak(SigningInput(f))).value;
      && raw.value != [] && raw.value[0] == 2
      && Decode(raw.value[1..]) == Some((List(UnsignedTree(f) + SignatureTree(sig)), []))
  {
    var unsigned := UnsignedItems(f);
    var signingInput := [TYPE];
    signingInput := signingInput + EncodeList(unsigned);
    var sig := sign(keccak(signingInput));
    if sig.None? {
      return None;
    }
    var signed := unsigned + [EncodeUint(sig.value.v), EncodeBytes(sig.value.r), EncodeBytes(sig.value.s)];
    var tx := [TYPE];
    tx := tx + EncodeList(signed);
    RawTransactionHolds(f, sig.value);
    return Some(tx);
  }

  // ----- And the list determines the fields -----

  lemma ReadFieldsOfTree(f: Fields)
    ensures ReadFields(UnsignedTree(f)) == Some(f)
  {
    UintMatches(f.chainId);
    UintMatches(f.nonce);
    UintMatches(f.maxPriorityFee);
    UintMatches(f.maxFee);
    UintMatches(f.gasLimit);
    UintMatches(f.value);
  }

  lemma ReadSignatureOfTree(sig: Signature)
    ensures ReadSignature(SignatureTree(sig)) == Some(sig)
  {
    UintMatches(sig.v);
  }

  /** Reading recovers every field, and the signature with them. */
  lemma EnvelopeRoundTrip(f: Fields, sig: Signature)
    ensures ReadUnsigned(SigningInput(f)) == Some(f)
    ensures ReadSigned(RawTransaction(f, sig)) == Some((f, sig))
  {
    RawTransactionHolds(f, sig);
    ReadFieldsOfTree(f);
    ReadSignatureOfTree(sig);
    var items := UnsignedTree(f) + SignatureTree(sig);
    assert items[..9] == UnsignedTree(f) && items[9..] == SignatureTree(sig);
  }

  /** What is hashed for signing commits to chain id, nonce, fees, gas, recipient, value and calldata. */
  lemma SigningInputDeterminesFields(f: Fields, g: Fields)
    requires SigningInput(f) == SigningInput(g)
    ensures f == g
  {
    var sig := Signature(0, seq(32, _ => 0), seq(32, _ => 0));
    EnvelopeRoundTrip(f, sig);
    EnvelopeRoundTrip(g, sig);
  }
}
