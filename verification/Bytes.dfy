/** Bytes, and the big-endian numbers that the wire formats are made of. */
module Bytes {

  type Byte = b: int | 0 <= b < 256

  /** Hashes, keys and 256-bit words: 32 bytes. */
  type Bytes32 = s: seq<Byte> | |s| == 32 witness seq(32, _ => 0)

  function Pow256(w: nat): (p: nat)
    ensures p > 0
  {
    if w == 0 then 1 else 256 * Pow256(w - 1)
  }

  /** The number a big-endian byte string denotes. */
  function FromBe(bs: seq<Byte>): nat {
    if bs == [] then 0 else 256 * FromBe(bs[..|bs| - 1]) + bs[|bs| - 1]
  }

  /** `to_be_bytes` of an unsigned integer that is `w` bytes wide. */
  function ToBe(n: nat, w: nat): (bs: seq<Byte>)
    ensures |bs| == w
  {
    if w == 0 then [] else ToBe(n / 256, w - 1) + [n % 256]
  }

  predicate Minimal(bs: seq<Byte>) {
    bs != [] ==> bs[0] != 0
  }

  /** Drops the leading zero bytes (`take_while(b == 0)` followed by the slice). */
  function StripZeros(bs: seq<Byte>): (r: seq<Byte>)
    ensures |r| <= |bs|
    ensures Minimal(r)
  {
    if bs != [] && bs[0] == 0 then StripZeros(bs[1..]) else bs
  }

  lemma {:induction false} FromToBe(n: nat, w: nat)
    requires n < Pow256(w)
    ensures FromBe(ToBe(n, w)) == n
  {
    if w > 0 {
      FromToBe(n / 256, w - 1);
      var bs := ToBe(n, w);
      assert bs[..|bs| - 1] == ToBe(n / 256, w - 1);
    }
  }

  lemma {:induction false} FromBeLeadingZero(bs: seq<Byte>)
    ensures FromBe([0] + bs) == FromBe(bs)
  {
    if bs != [] {
      var zs := [0] + bs;
      assert zs[..|zs| - 1] == [0] + bs[..|bs| - 1];
      FromBeLeadingZero(bs[..|bs| - 1]);
    }
  }

  lemma {:induction false} FromStripZeros(bs: seq<Byte>)
    ensures FromBe(StripZeros(bs)) == FromBe(bs)
  {
    if bs != [] && bs[0] == 0 {
      FromStripZeros(bs[1..]);
      FromBeLeadingZero(bs[1..]);
      assert bs == [0] + bs[1..];
    }
  }

  lemma {:induction false} FromBeUpper(bs: seq<Byte>)
    ensures FromBe(bs) < Pow256(|bs|)
  {
    if bs != [] {
      FromBeUpper(bs[..|bs| - 1]);
    }
  }

  /** A non-empty string without leading zero denotes a positive number. */
  lemma {:induction false} MinimalPositive(bs: seq<Byte>)
    requires bs != [] && bs[0] != 0
    ensures FromBe(bs) > 0
  {
    if |bs| > 1 {
      MinimalPositive(bs[..|bs| - 1]);
    }
  }

  /** The representation without leading zeros is unique. */
  lemma {:induction false} MinimalUnique(a: seq<Byte>, b: seq<Byte>)
    requires Minimal(a) && Minimal(b)
    requires FromBe(a) == FromBe(b)
    ensures a == b
  {
    if a == [] || b == [] {
      if a != [] {
        MinimalPositive(a);
      }
      if b != [] {
        MinimalPositive(b);
      }
    } else {
      var a', b' := a[..|a| - 1], b[..|b| - 1];
      assert FromBe(a') == FromBe(b') && a[|a| - 1] == b[|b| - 1];
      MinimalUnique(a', b');
      assert a == a' + [a[|a| - 1]] && b == b' + [b[|b| - 1]];
    }
  }

  /** Trimming the fixed-width form gives the minimal form of the same number. */
  lemma StripToBe(n: nat, w: nat)
    requires n < Pow256(w)
    ensures FromBe(StripZeros(ToBe(n, w))) == n
    ensures n > 0 ==> StripZeros(ToBe(n, w)) != []
  {
    FromStripZeros(ToBe(n, w));
    FromToBe(n, w);
  }
}
