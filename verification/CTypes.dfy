/** Values that may be absent, and the C integer types as ranges of int. */
module CTypes {
  datatype Option<+T> = None | Some(value: T)

  /** Storing an int in a 32-bit unsigned integer. */
  function Card32(v: int): (r: nat)
    ensures r < 0x1_0000_0000
  {
    v % 0x1_0000_0000
  }

  /** Storing an int in a 32-bit signed integer. */
  function Int32(v: int): int {
    (v + 0x8000_0000) % 0x1_0000_0000 - 0x8000_0000
  }

  /** Storing an int in a 16-bit signed integer. */
  function Int16(v: int): int {
    (v + 0x8000) % 0x1_0000 - 0x8000
  }

  /** Each is the one number of its range that differs from v by a multiple of 2^16 or 2^32. */
  lemma Conversions(v: int)
    ensures 0 <= Card32(v) < 4294967296 && (v - Card32(v)) % 4294967296 == 0
    ensures -2147483648 <= Int32(v) < 2147483648 && (v - Int32(v)) % 4294967296 == 0
    ensures -32768 <= Int16(v) < 32768 && (v - Int16(v)) % 65536 == 0
  {
    OffBy32(v / 4294967296, v - Card32(v));
    OffBy32((v + 2147483648) / 4294967296, v - Int32(v));
    OffBy16((v + 32768) / 65536, v - Int16(v));
  }

  lemma OffBy32(q: int, d: int)
    requires d == 4294967296 * q
    ensures d % 4294967296 == 0
  {}

  lemma OffBy16(q: int, d: int)
    requires d == 65536 * q
    ensures d % 65536 == 0
  {}
}
