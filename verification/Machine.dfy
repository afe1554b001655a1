/** The fixed-width integers of the sources: wrap-around, casts and saturation, written out. */
module Machine {

  const U16: nat := 0x1_0000
  const U32: nat := 0x1_0000_0000
  const U64: nat := 0x1_0000_0000_0000_0000
  const U128: nat := 0x1_0000_0000_0000_0000_0000_0000_0000_0000
  const I64: int := 0x8000_0000_0000_0000

  type Uint32 = n: nat | n < U32
  type Uint64 = n: nat | n < U64

  function WrapU32(n: int): Uint32 {
    n % U32
  }

  function WrapU64(n: int): Uint64 {
    n % U64
  }

  /** The signed value with the same low 64 bits; the cast `as i64` is the same function. */
  function WrapI64(n: int): (r: int)
    ensures -I64 <= r < I64
    ensures -I64 <= n < I64 ==> r == n
  {
    (n + I64) % U64 - I64
  }

  function Saturate(n: nat): Uint64 {
    if n < U64 then n else U64 - 1
  }

  function SaturatingAdd(a: nat, b: nat): Uint64 {
    Saturate(a + b)
  }

  function SaturatingMul(a: nat, b: nat): Uint64 {
    Saturate(a * b)
  }

  function SaturatingSub(a: nat, b: nat): nat {
    if a < b then 0 else a - b
  }

  function Min(a: nat, b: nat): nat {
    if a < b then a else b
  }
}
