/**
 * The compact-u16 length prefix: seven bits a byte, least significant first, the
 * high bit of a byte saying that another one follows.
 */
module CompactU16 {
  import opened Bytes
  import opened Machine
  import opened Options

  /** The encoder. A length is first cast to `u16`, which drops its high bits. */
  function Encode(length: nat): (bs: seq<Byte>)
    ensures 1 <= |bs| <= 3
  {
    var n := length % U16;
    if n < 0x80 then [n]
    else if n < 0x4000 then [n % 0x80 + 0x80, n / 0x80]
    else [n % 0x80 + 0x80, n / 0x80 % 0x80 + 0x80, n / 0x4000]
  }

  /**
   * A reader of the same format: the length and the bytes behind it. It takes only the
   * shortest form of a length, and nothing above 65535.
   */
  function Decode(bs: seq<Byte>): (r: Option<(nat, seq<Byte>)>)
    ensures r.Some? ==> r.value.0 < U16 && |r.value.1| < |bs|
  {
    if bs == [] then None
    else if bs[0] < 0x80 then Some((bs[0], bs[1..]))
    else if |bs| == 1 || bs[1] == 0 then None
    else
      var b0: int, b1: int := bs[0], bs[1];
      if b1 < 0x80 then Some((b0 - 0x80 + 0x80 * b1, bs[2..]))
      else if |bs| == 2 || !(1 <= bs[2] < 4) then None
      else
        var b2: int := bs[2];
        Some((b0 - 0x80 + 0x80 * (b1 - 0x80) + 0x4000 * b2, bs[3..]))
  }

  /** Self-delimiting: whatever follows a length, exactly the length is read back. */
  lemma DecodeEncode(length: nat, rest: seq<Byte>)
    ensures Decode(Encode(length) + rest) == Some((length % U16, rest))
  {
    var n, e := length % U16, Encode(length);
    assert (e + rest)[|e|..] == rest;
    if n >= 0x4000 {
      assert n == n % 0x80 + 0x80 * (n / 0x80 % 0x80) + 0x4000 * (n / 0x4000);
    }
  }

  lemma LowSeven(q: nat, r: nat)
    requires r < 0x80
    ensures (0x80 * q + r) % 0x80 == r && (0x80 * q + r) / 0x80 == q
  {
  }

  lemma LowFourteen(q: nat, r: nat)
    requires r < 0x4000
    ensures (0x4000 * q + r) / 0x4000 == q
  {
  }

  lemma TwoByteForm(n: nat)
    requires 0x80 <= n < 0x4000
    ensures Encode(n) == [n % 0x80 + 0x80, n / 0x80]
  {
  }

  lemma TwoBytes(b0: Byte, b1: Byte)
    requires 0x80 <= b0 && 0 < b1 < 0x80
    ensures Encode(b0 - 0x80 + 0x80 * b1) == [b0, b1]
  {
    var low: nat, high: nat := b0 - 0x80, b1;
    var n := 0x80 * high + low;
    LowSeven(high, low);
    assert 0x80 <= n < 0x4000;
    TwoByteForm(n);
  }

  lemma ThreeByteForm(n: nat)
    requires 0x4000 <= n < U16
    ensures Encode(n) == [n % 0x80 + 0x80, n / 0x80 % 0x80 + 0x80, n / 0x4000]
  {
  }

  lemma ThreeBytes(b0: Byte, b1: Byte, b2: Byte)
    requires 0x80 <= b0 && 0x80 <= b1 && 1 <= b2 < 4
    ensures Encode(b0 - 0x80 + 0x80 * (b1 - 0x80) + 0x4000 * b2) == [b0, b1, b2]
  {
    var low: nat, mid: nat, top: nat := b0 - 0x80, b1 - 0x80, b2;
    var n := low + 0x80 * mid + 0x4000 * top;
    LowSeven(mid + 0x80 * top, low);
    LowSeven(top, mid);
    LowFourteen(top, low + 0x80 * mid);
    assert n == 0x80 * (mid + 0x80 * top) + low == 0x4000 * top + (low + 0x80 * mid);
    assert 0x4000 <= n < U16;
    ThreeByteForm(n);
  }

  /** Canonical: nothing but the encoder's own output is read. */
  lemma EncodeDecode(bs: seq<Byte>)
    requires Decode(bs).Some?
    ensures bs == Encode(Decode(bs).value.0) + Decode(bs).value.1
  {
    if bs[0] < 0x80 {
      assert bs == [bs[0]] + bs[1..];
    } else if bs[1] < 0x80 {
      TwoBytes(bs[0], bs[1]);
      assert bs == [bs[0], bs[1]] + bs[2..];
    } else {
      ThreeBytes(bs[0], bs[1], bs[2]);
      assert bs == [bs[0], bs[1], bs[2]] + bs[3..];
    }
  }
}
