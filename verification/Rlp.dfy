/**
 * RLP (Appendix B of the Ethereum Yellow Paper): the encoders for byte strings, integers
 * and lists, and a strict decoder that accepts exactly their output.
 */
module Rlp {
  import opened Bytes
  import opened Collections
  import opened Machine
  import opened Options

  const STRING: Byte := 0x80
  const LIST: Byte := 0xc0
  datatype Item = Str(bytes: seq<Byte>) | List(items: seq<Item>)

  // ----- The encoders -----

  /** `rlp_len_prefix`: the low byte, or the count of length bytes and the length itself. */
  function LenPrefix(length: nat, offset: Byte): (r: seq<Byte>)
    requires offset == STRING || offset == LIST
    ensures 1 <= |r| <= 9
  {
    if length < 56 then
      [offset + length]
    else
      var trimmed := StripZeros(ToBe(length, 8));
      [offset + 55 + |trimmed|] + trimmed
  }

  /** `rlp_bytes`. */
  function EncodeBytes(data: seq<Byte>): seq<Byte> {
    if |data| == 1 && data[0] < 0x80 then data else LenPrefix(|data|, STRING) + data
  }

  /** `rlp_uint` of a `u128`. */
  function EncodeUint(n: nat): seq<Byte> {
    if n == 0 then [0x80] else EncodeBytes(StripZeros(ToBe(n, 16)))
  }

  /** `rlp_list` of items that are encoded already. */
  function EncodeList(items: seq<seq<Byte>>): seq<Byte> {
    LenPrefix(|Flatten(items)|, LIST) + Flatten(items)
  }

  /** The encoding of a tree, by the encoders above. */
  function Encode(x: Item): seq<Byte>
    decreases x
  {
    match x
    case Str(bytes) => EncodeBytes(bytes)
    case List(items) => LenPrefix(|EncodeAll(items)|, LIST) + EncodeAll(items)
  }

  function EncodeAll(items: seq<Item>): seq<Byte>
    decreases items
  {
    if items == [] then [] else Encode(items[0]) + EncodeAll(items[1..])
  }

  /** Every payload length of the tree is a 64-bit `usize`. */
  predicate Fits(x: Item)
    decreases x
  {
    match x
    case Str(bytes) => |bytes| < U64
    case List(items) => AllFit(items) && |EncodeAll(items)| < U64
  }

  predicate AllFit(items: seq<Item>)
    decreases items
  {
    items == [] || (Fits(items[0]) && AllFit(items[1..]))
  }

  // ----- The decoder -----

  /** The first bytes of an item: what kind it is, how long its payload, how long they are themselves. */
  datatype Header = Header(isList: bool, length: nat, size: nat)

  /** The header with the given offset: `tag` is the first byte less the offset. */
  function DecodeLength(bs: seq<Byte>, isList: bool, tag: nat): Option<Header> {
    if tag < 56 then Some(Header(isList, tag, 1))
    else
      var count := tag - 55;
      if |bs| < 1 + count || bs[1] == 0 || FromBe(bs[1..1 + count]) < 56 then None
      else Some(Header(isList, FromBe(bs[1..1 + count]), 1 + count))
  }

  function DecodeHeader(bs: seq<Byte>): (r: Option<Header>)
    ensures r.Some? ==> 1 <= r.value.size <= |bs|
  {
    if bs == [] || bs[0] < 0x80 then None
    else if bs[0] < 0xc0 then DecodeLength(bs, false, bs[0] - 0x80)
    else DecodeLength(bs, true, bs[0] - 0xc0)
  }

  /** One item from the front, and what is behind it. Only the encoder's own forms are accepted. */
  function Decode(bs: seq<Byte>): (r: Option<(Item, seq<Byte>)>)
    ensures r.Some? ==> |r.value.1| < |bs|
    decreases |bs|, 0
  {
    if bs == [] then None
    else if bs[0] < 0x80 then Some((Str([bs[0]]), bs[1..]))
    else
      var h :- DecodeHeader(bs);
      if |bs| < h.size + h.length then None
      else
        var payload, rest := bs[h.size..h.size + h.length], bs[h.size + h.length..];
        if h.isList then
          var items :- DecodeAll(payload);
          Some((List(items), rest))
        else if |payload| == 1 && payload[0] < 0x80 then None
        else Some((Str(payload), rest))
  }

  /** Items up to the end of the input. */
  function DecodeAll(bs: seq<Byte>): Option<seq<Item>>
    decreases |bs|, 1
  {
    if bs == [] then Some([])
    else
      var (x, rest) :- Decode(bs);
      var xs :- DecodeAll(rest);
      Some([x] + xs)
  }

  // ----- Headers -----

  lemma U64IsPow256()
    ensures Pow256(8) == U64 && Pow256(7) == 0x100_0000_0000_0000
  {
    assert Pow256(2) == 0x1_0000;
    assert Pow256(4) == 0x1_0000_0000;
    assert Pow256(6) == 0x1_0000_0000_0000;
  }

  /** A header is read back from in front of anything. */
  lemma DecodeLenPrefix(length: nat, isList: bool, rest: seq<Byte>)
    requires length < U64
    ensures var p := LenPrefix(length, if isList then LIST else STRING);
      DecodeHeader(p + rest) == Some(Header(isList, length, |p|))
  {
    var offset: Byte := if isList then LIST else STRING;
    var p := LenPrefix(length, offset);
    if length >= 56 {
      var trimmed := StripZeros(ToBe(length, 8));
      U64IsPow256();
      StripToBe(length, 8);
      assert (p + rest)[1..1 + |trimmed|] == trimmed;
      assert (p + rest)[1] == trimmed[0];
    }
  }

  lemma {:induction false} Pow256Monotone(a: nat, b: nat)
    requires a <= b
    ensures Pow256(a) <= Pow256(b)
  {
    if a < b {
      Pow256Monotone(a, b - 1);
    }
  }

  /** And it is the only header of its kind and length. */
  lemma HeaderIsLenPrefix(bs: seq<Byte>)
    requires DecodeHeader(bs).Some?
    ensures var h := DecodeHeader(bs).value;
      h.length < U64 && bs[..h.size] == LenPrefix(h.length, if h.isList then LIST else STRING)
  {
    var h := DecodeHeader(bs).value;
    var offset: Byte := if h.isList then LIST else STRING;
    if h.size > 1 {
      var trimmed := bs[1..h.size];
      U64IsPow256();
      FromBeUpper(trimmed);
      Pow256Monotone(|trimmed|, 8);
      StripToBe(h.length, 8);
      MinimalUnique(trimmed, StripZeros(ToBe(h.length, 8)));
      assert bs[..h.size] == [bs[0]] + trimmed;
    } else {
      assert bs[..1] == [bs[0]];
    }
  }

  // ----- Encode, then decode -----

  lemma DecodeEncodedBytes(data: seq<Byte>, rest: seq<Byte>)
    requires |data| < U64
    ensures Decode(EncodeBytes(data) + rest) == Some((Str(data), rest))
  {
    var bs := EncodeBytes(data) + rest;
    if |data| == 1 && data[0] < 0x80 {
      assert bs[1..] == rest && [bs[0]] == data;
    } else {
      var p := LenPrefix(|data|, STRING);
      assert bs == p + (data + rest);
      DecodeLenPrefix(|data|, false, data + rest);
      assert bs[|p|..|p| + |data|] == data && bs[|p| + |data|..] == rest;
      assert p[0] >= 0x80;
    }
  }

  lemma DecodeEncodedList(payload: seq<Byte>, items: seq<Item>, rest: seq<Byte>)
    requires |payload| < U64
    requires DecodeAll(payload) == Some(items)
    ensures Decode(LenPrefix(|payload|, LIST) + payload + rest) == Some((List(items), rest))
  {
    var p := LenPrefix(|payload|, LIST);
    var bs := p + payload + rest;
    assert bs == p + (payload + rest);
    DecodeLenPrefix(|payload|, true, payload + rest);
    assert bs[|p|..|p| + |payload|] == payload && bs[|p| + |payload|..] == rest;
    assert p[0] >= 0x80;
  }

  lemma {:induction false} DecodeEncode(x: Item, rest: seq<Byte>)
    requires Fits(x)
    ensures Decode(Encode(x) + rest) == Some((x, rest))
    decreases x, 0
  {
    match x
    case Str(bytes) => DecodeEncodedBytes(bytes, rest);
    case List(items) =>
      DecodeEncodeAll(items);
      DecodeEncodedList(EncodeAll(items), items, rest);
  }

  lemma {:induction false} DecodeEncodeAll(items: seq<Item>)
    requires AllFit(items)
    ensures DecodeAll(EncodeAll(items)) == Some(items)
    decreases items
  {
    if items != [] {
      DecodeEncode(items[0], EncodeAll(items[1..]));
      DecodeEncodeAll(items[1..]);
      assert [items[0]] + items[1..] == items;
    }
  }

  // ----- Decode, then encode -----

  lemma {:induction false} EncodeDecode(bs: seq<Byte>)
    ensures Decode(bs).Some? ==>
      var (x, rest) := Decode(bs).value; Fits(x) && bs == Encode(x) + rest
    decreases |bs|, 0
  {
    if Decode(bs).Some? {
      var (x, rest) := Decode(bs).value;
      if bs[0] < 0x80 {
        assert bs == [bs[0]] + rest;
      } else {
        var h := DecodeHeader(bs).value;
        var payload := bs[h.size..h.size + h.length];
        HeaderIsLenPrefix(bs);
        assert bs == bs[..h.size] + payload + rest;
        if h.isList {
          EncodeDecodeAll(payload);
        }
      }
    }
  }

  lemma {:induction false} EncodeDecodeAll(bs: seq<Byte>)
    ensures DecodeAll(bs).Some? ==> AllFit(DecodeAll(bs).value) && bs == EncodeAll(DecodeAll(bs).value)
    decreases |bs|, 1
  {
    if bs != [] && DecodeAll(bs).Some? {
      var (x, rest) := Decode(bs).value;
      EncodeDecode(bs);
      EncodeDecodeAll(rest);
      var xs := DecodeAll(bs).value;
      assert xs[0] == x && xs[1..] == DecodeAll(rest).value;
    }
  }

  /**
   * The decoder is the exact inverse of the encoder: it reads an item and a rest from exactly
   * those inputs that are the item's encoding followed by the rest.
   */
  lemma DecodeIffEncoded(bs: seq<Byte>, x: Item, rest: seq<Byte>)
    ensures Decode(bs) == Some((x, rest)) <==> Fits(x) && bs == Encode(x) + rest
  {
    EncodeDecode(bs);
    if Fits(x) && bs == Encode(x) + rest {
      DecodeEncode(x, rest);
    }
  }

  /** No encoding is a proper prefix of another, and different trees have different encodings. */
  lemma EncodePrefixFree(x: Item, y: Item, rest: seq<Byte>)
    requires Fits(x) && Fits(y)
    requires Encode(x) + rest == Encode(y)
    ensures x == y && rest == []
  {
    DecodeEncode(x, rest);
    DecodeEncode(y, []);
    assert Encode(y) + [] == Encode(y);
  }

  // ----- Integers -----

  /** The byte string an integer is encoded as. */
  function UintBytes(n: nat): seq<Byte> {
    StripZeros(ToBe(n, 16))
  }

  lemma U128IsPow256()
    ensures Pow256(16) == U128
  {
    U64IsPow256();
    assert Pow256(10) == 0x1_0000_0000_0000_0000_0000;
    assert Pow256(12) == 0x1_0000_0000_0000_0000_0000_0000;
    assert Pow256(14) == 0x1_0000_0000_0000_0000_0000_0000_0000;
  }

  /** An integer is a string without leading zeros that denotes it, zero the empty one. */
  lemma UintIsString(n: nat)
    requires n < U128
    ensures EncodeUint(n) == Encode(Str(UintBytes(n)))
    ensures Minimal(UintBytes(n)) && FromBe(UintBytes(n)) == n && |UintBytes(n)| <= 16
  {
    U128IsPow256();
    StripToBe(n, 16);
    if n == 0 {
      MinimalUnique(UintBytes(0), []);
    }
  }

  lemma UintRoundTrip(n: nat, rest: seq<Byte>)
    requires n < U128
    ensures var r := Decode(EncodeUint(n) + rest);
      r.Some? && r.value.1 == rest && r.value.0.Str? && FromBe(r.value.0.bytes) == n
  {
    UintIsString(n);
    DecodeEncode(Str(UintBytes(n)), rest);
  }
}
