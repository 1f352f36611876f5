/** Machine integers of the VM: signed 32- and 64-bit words with wrap-around. */
module Words {

  const TWO_32: int := 0x1_0000_0000
  const TWO_64: int := 0x1_0000_0000_0000_0000

  type byte = x: int | 0 <= x < 256
  type i32 = x: int | -0x8000_0000 <= x < 0x8000_0000
  type i64 = x: int | -0x8000_0000_0000_0000 <= x < 0x8000_0000_0000_0000

  /** The word congruent to x modulo 2^32. */
  function Wrap32(x: int): (r: i32)
    ensures (r - x) % TWO_32 == 0
  {
    var u := x % TWO_32;
    if u < 0x8000_0000 then u else u - TWO_32
  }

  /** The word congruent to x modulo 2^64. */
  function Wrap64(x: int): (r: i64)
    ensures (r - x) % TWO_64 == 0
  {
    var u := x % TWO_64;
    if u < 0x8000_0000_0000_0000 then u else u - TWO_64
  }

  function Pow2(n: nat): (r: int)
    ensures r >= 1
  {
    if n == 0 then 1 else 2 * Pow2(n - 1)
  }

  function Abs(x: int): nat {
    if x < 0 then -x else x
  }

  /** Division truncating toward zero, as Rust and Java divide. */
  function TruncDiv(a: int, b: int): int
    requires b != 0
  {
    if (a < 0) == (b < 0) then Abs(a) / Abs(b) else -(Abs(a) / Abs(b))
  }

  /** The remainder that goes with TruncDiv: it takes the dividend's sign. */
  function TruncRem(a: int, b: int): int
    requires b != 0
  {
    a - b * TruncDiv(a, b)
  }

  datatype Bitwise = And | Or | Xor

  /** A bitwise operation on the low n bits of two numbers, bit by bit. */
  function BitwiseLow(op: Bitwise, x: nat, y: nat, n: nat): nat
    decreases n
  {
    if n == 0 then 0 else 2 * BitwiseLow(op, x / 2, y / 2, n - 1) + BitResult(op, x % 2, y % 2)
  }

  function BitResult(op: Bitwise, x: nat, y: nat): (r: nat)
    requires x < 2 && y < 2
    ensures r < 2
  {
    match op
    case And => if x == 1 && y == 1 then 1 else 0
    case Or => if x == 1 || y == 1 then 1 else 0
    case Xor => if x == y then 0 else 1
  }

  /** Bitwise operations act on the two's complement bits. */
  function BitOp32(op: Bitwise, a: i32, b: i32): i32 {
    Wrap32(BitwiseLow(op, a % TWO_32, b % TWO_32, 32))
  }

  function BitOp64(op: Bitwise, a: i64, b: i64): i64 {
    Wrap64(BitwiseLow(op, a % TWO_64, b % TWO_64, 64))
  }

  /** The signed value of one byte. */
  function Signed8(b: byte): i32 {
    if b < 0x80 then b else b - 0x100
  }

  /** Big-endian assembly of two bytes, unsigned. */
  function Unsigned16(hi: byte, lo: byte): (r: nat)
    ensures r < 0x1_0000
  {
    hi * 0x100 + lo
  }

  /** Big-endian assembly of two bytes, signed. */
  function Signed16(hi: byte, lo: byte): i32 {
    var u := Unsigned16(hi, lo);
    if u < 0x8000 then u else u - 0x1_0000
  }

  /** Big-endian assembly of four bytes, signed. */
  function Signed32(b0: byte, b1: byte, b2: byte, b3: byte): i32 {
    var u := b0 * 0x100_0000 + b1 * 0x1_0000 + b2 * 0x100 + b3;
    if b0 < 0x80 then u else u - TWO_32
  }
}
