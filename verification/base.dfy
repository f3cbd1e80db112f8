/** Shared vocabulary for the model: optional values, bytes and the
    unsigned 32-bit integers that the bot stores its counters in. */
module Base {

  /** The conventional Some/None datatype, used in place of a null pointer. */
  datatype Option<+T> = None | Some(value: T)

  /** 2^32: every `uint32_t` of the source lies strictly below it. */
  const U32_LIMIT: int := 0x1_0000_0000

  /** An unsigned 32-bit integer (`uint32_t`). */
  type u32 = x: int | 0 <= x < U32_LIMIT

  /** One byte of an action buffer. */
  type byte = x: int | 0 <= x < 256

  type Bytes = seq<byte>

  /** `uint32_t` addition, which wraps around modulo 2^32. */
  function AddU32(a: u32, b: u32): (r: u32)
    ensures a + b < U32_LIMIT ==> r == a + b
    ensures a + b >= U32_LIMIT ==> r == a + b - U32_LIMIT
  {
    (a + b) % U32_LIMIT
  }

  /** `uint32_t` subtraction, which wraps around modulo 2^32. */
  function SubU32(a: u32, b: u32): (r: u32)
    ensures b <= a ==> r == a - b
    ensures a < b ==> r == a - b + U32_LIMIT
  {
    (a - b) % U32_LIMIT
  }

  /** Reduction modulo 2^32 differs from its argument by a multiple of
      2^32, and leaves values already in range alone. */
  lemma ModU32(p: int)
    ensures (p - p % U32_LIMIT) % U32_LIMIT == 0
    ensures 0 <= p < U32_LIMIT ==> p % U32_LIMIT == p
  {
    var q := p / U32_LIMIT;
    assert p - p % U32_LIMIT == q * U32_LIMIT;
  }

  /** `uint32_t` multiplication, which keeps the low 32 bits of the product. */
  function MulU32(a: u32, b: u32): (r: u32)
    ensures (a * b - r) % U32_LIMIT == 0
    ensures a * b < U32_LIMIT ==> r == a * b
  {
    var p := a * b;
    assert p >= 0;
    ModU32(p);
    p % U32_LIMIT
  }
}
