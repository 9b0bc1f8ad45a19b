/** Status codes and fixed-width integer types shared by the containers and the codecs. */
module Fabric {

  /** C `uint8_t`, `uint16_t`, `uint32_t`, `uint64_t` as bounded integers. */
  type byte = x: int | 0 <= x < 0x100
  type u16 = x: int | 0 <= x < 0x1_0000
  type u32 = x: int | 0 <= x < 0x1_0000_0000
  type u64 = x: int | 0 <= x < 0x1_0000_0000_0000_0000
  /** C `int32_t`, `int64_t`. */
  type i32 = x: int | -0x8000_0000 <= x < 0x8000_0000
  type i64 = x: int | -0x8000_0000_0000_0000 <= x < 0x8000_0000_0000_0000

  const U32_MAX: u32 := 0xFFFF_FFFF

  datatype Option<T> = None | Some(value: T)

  /** The outcome codes the core returns. */
  datatype Status = Ok | NoMem | IndexOutOfBounds

  /** Numeric values of FABRICDB_OK and FABRICDB_ENOMEM (FABRICDB_EMEM | 1). */
  const FABRICDB_OK: u32 := 0x0000_0000
  const FABRICDB_EMEM: u32 := 0x0300_0000
  const FABRICDB_ENOMEM: u32 := 0x0300_0001

  /** The result of `fabricdb_malloc(n)`: a zero-byte request yields NULL like a failed one. */
  predicate Allocates(numBytes: nat, allocOk: bool)
  {
    numBytes > 0 && allocOk
  }

  /** The C expression `x - 1` on a `uint32_t`: wraps from 0 to 2^32 - 1. */
  function DecU32(x: u32): (r: u32)
    ensures x > 0 ==> r + 1 == x
    ensures x == 0 ==> r == U32_MAX
  {
    (x - 1) % 0x1_0000_0000
  }

  /** Euclidean division has unique quotient and remainder. */
  lemma DivModUnique(x: int, d: int, q: int, r: int)
    requires d > 0 && 0 <= r < d && x == d * q + r
    ensures x % d == r && x / d == q
  {
    var q', r' := x / d, x % d;
    assert d * (q - q') == r' - r;
    if q > q' {
      MulAtLeast(d, q - q');
    } else if q < q' {
      MulAtLeast(d, q' - q);
    }
  }

  lemma MulAtLeast(d: int, k: int)
    requires d > 0 && k >= 1
    ensures d * k >= d
  {
  }
}
