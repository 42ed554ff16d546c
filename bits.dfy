/**
 * Fixed-width integer helpers shared by the SNTP and TLS models.
 *
 * The firmware is C on a 32-bit little-endian core.  Every place where C
 * wraps, truncates or reinterprets an integer is written out with the helpers
 * below; all other arithmetic is on Dafny's unbounded `int`.
 */
module Bits {

  /** A byte as C's `uint8_t`. */
  type byte = u8

  const TWO16: int := 0x1_0000
  const TWO32: int := 0x1_0000_0000
  const TWO63: int := 0x8000_0000_0000_0000
  const TWO64: int := 0x1_0000_0000_0000_0000

  type u8 = x: int | 0 <= x < 0x100
  type u16 = x: int | 0 <= x < 0x1_0000
  type u32 = x: int | 0 <= x < 0x1_0000_0000
  type u64 = x: int | 0 <= x < 0x1_0000_0000_0000_0000
  /** The values of a C `int64_t`. */
  type i64 = x: int | -0x8000_0000_0000_0000 <= x < 0x8000_0000_0000_0000

  /** Conversion to `uint8_t`: keep the low 8 bits. */
  function Wrap8(x: int): (r: u8)
    ensures 0 <= x < 0x100 ==> r == x
  {
    x % 0x100
  }

  /** Conversion to `uint16_t`: keep the low 16 bits. */
  function Wrap16(x: int): (r: u16)
    ensures 0 <= x < 0x1_0000 ==> r == x
  {
    x % 0x1_0000
  }

  /** Conversion to `uint32_t`: keep the low 32 bits. */
  function Wrap32(x: int): (r: u32)
    ensures 0 <= x < TWO32 ==> r == x
  {
    x % TWO32
  }

  /** Conversion to `uint64_t`: keep the low 64 bits. */
  function Wrap64(x: int): (r: u64)
    ensures 0 <= x < TWO64 ==> r == x
  {
    x % TWO64
  }

  /** Two's-complement reading of a 64-bit pattern, as a C cast to `int64_t`. */
  function Signed64(x: u64): (r: i64)
    ensures Wrap64(r) == x
    ensures x < TWO63 <==> r >= 0
  {
    if x < TWO63 then x else x - TWO64
  }

  /** A value that fits an `int64_t` survives the round trip through `uint64_t`. */
  lemma Signed64OfWrap(x: int)
    requires -TWO63 <= x < TWO63
    ensures Signed64(Wrap64(x)) == x
  {
    if x < 0 {
      Wrap64OfNegative(x);
    }
  }

  /** A negative value within one turn wraps to itself plus 2^64. */
  lemma Wrap64OfNegative(x: int)
    requires -TWO64 <= x < 0
    ensures Wrap64(x) == x + TWO64
  {
  }

  /** Two's-complement reading of a 32-bit pattern, as a C cast to `int`. */
  function Signed32(x: u32): (r: int)
    ensures -0x8000_0000 <= r < 0x8000_0000
    ensures Wrap32(r) == x
  {
    if x < 0x8000_0000 then x else x - TWO32
  }

  /** C's `/` on signed operands: the quotient is truncated toward zero. */
  function CDiv(a: int, b: int): (q: int)
    requires b > 0
    ensures a >= 0 ==> q == a / b
    ensures a < 0 ==> q == -((-a) / b)
  {
    if a >= 0 then a / b else -((-a) / b)
  }

  /** C's `%` on signed operands: the remainder has the sign of the dividend. */
  function CRem(a: int, b: int): (r: int)
    requires b > 0
    ensures a == CDiv(a, b) * b + r
    ensures a >= 0 ==> 0 <= r < b
    ensures a < 0 ==> -b < r <= 0
  {
    if a >= 0 then a % b else -((-a) % b)
  }

  /** `ntohl` of four bytes taken from the wire (network byte order). */
  function Be32(b: seq<byte>): (x: u32)
    requires |b| == 4
  {
    (b[0] as int) * 0x100_0000 + (b[1] as int) * 0x1_0000 + (b[2] as int) * 0x100 + b[3] as int
  }

  /** `htonl`: the four bytes that carry `x` in network byte order. */
  function Be32Bytes(x: u32): (b: seq<byte>)
    ensures |b| == 4
  {
    [(x / 0x100_0000), ((x / 0x1_0000) % 0x100), ((x / 0x100) % 0x100), (x % 0x100)]
  }

  /** Decoding what `htonl` wrote gives back the value. */
  lemma Be32RoundTrip(x: u32)
    ensures Be32(Be32Bytes(x)) == x
  {
    Be32Digits(x);
  }

  /** A 32-bit value is the sum of its four base-256 digits. */
  lemma Be32Digits(x: u32)
    ensures x == (x / 0x100_0000) * 0x100_0000 + ((x / 0x1_0000) % 0x100) * 0x1_0000
      + ((x / 0x100) % 0x100) * 0x100 + x % 0x100
  {
    var q1 := x / 0x100;
    var q2 := q1 / 0x100;
    DivTwice(x);
    DivTwice(q1);
    assert x / 0x100_0000 == q2 / 0x100;
    assert q1 == q2 * 0x100 + q1 % 0x100;
    assert q2 == (q2 / 0x100) * 0x100 + q2 % 0x100;
  }

  /** Dividing by 256 twice is dividing by 65536. */
  lemma DivTwice(y: nat)
    ensures (y / 0x100) / 0x100 == y / 0x1_0000
  {
  }

  /** Two different values never share an encoding. */
  lemma Be32BytesInjective(x: u32, y: u32)
    requires Be32Bytes(x) == Be32Bytes(y)
    ensures x == y
  {
    Be32RoundTrip(x);
    Be32RoundTrip(y);
  }
}
