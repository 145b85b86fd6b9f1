/** Bytes as bit-vectors, and a byte buffer read as one long string of bits in
    least-significant-bit-first order (the little-endian branch of SHIFT_L and SHIFT_R). */
module Bits {
  type byte = bv8

  /** SHIFT_L on an unsigned byte, cut back to eight bits. */
  function Shl(b: byte, s: nat): byte
    requires s <= 8
  {
    if s == 0 then b else if s == 1 then b << 1 else if s == 2 then b << 2 else if s == 3 then b << 3
    else if s == 4 then b << 4 else if s == 5 then b << 5 else if s == 6 then b << 6 else if s == 7 then b << 7
    else 0
  }

  /** SHIFT_R on an unsigned byte. */
  function Shr(b: byte, s: nat): byte
    requires s <= 8
  {
    if s == 0 then b else if s == 1 then b >> 1 else if s == 2 then b >> 2 else if s == 3 then b >> 3
    else if s == 4 then b >> 4 else if s == 5 then b >> 5 else if s == 6 then b >> 6 else if s == 7 then b >> 7
    else 0
  }

  /** (1 << n) - 1 */
  function LowMask(n: nat): byte
    requires n < 8
  {
    if n == 0 then 0 else if n == 1 then 1 else if n == 2 then 3 else if n == 3 then 7
    else if n == 4 then 15 else if n == 5 then 31 else if n == 6 then 63 else 127
  }

  predicate Bit(b: byte, i: nat)
    requires i < 8
  {
    if i == 0 then b & 1 != 0 else if i == 1 then b & 2 != 0 else if i == 2 then b & 4 != 0
    else if i == 3 then b & 8 != 0 else if i == 4 then b & 16 != 0 else if i == 5 then b & 32 != 0
    else if i == 6 then b & 64 != 0 else b & 128 != 0
  }

  /** Bit p of a buffer: bit p % 8 of byte p / 8. */
  predicate BitAt(s: seq<byte>, p: nat)
    requires p < 8 * |s|
  {
    Bit(s[p / 8], p % 8)
  }

  lemma OrBit(a: byte, b: byte, i: nat)
    requires i < 8
    ensures Bit(a | b, i) == (Bit(a, i) || Bit(b, i))
  {
    if i == 0 {} else if i == 1 {} else if i == 2 {} else if i == 3 {}
    else if i == 4 {} else if i == 5 {} else if i == 6 {} else {}
  }

  lemma MaskBit(b: byte, n: nat, i: nat)
    requires i < 8 && n < 8
    ensures Bit(b & LowMask(n), i) == (i < n && Bit(b, i))
  {
    if i == 0 {} else if i == 1 {} else if i == 2 {} else if i == 3 {}
    else if i == 4 {} else if i == 5 {} else if i == 6 {} else {}
  }

  lemma ShlBit(b: byte, s: nat, i: nat)
    requires i < 8 && s <= 8
    ensures Bit(Shl(b, s), i) == (i >= s && Bit(b, i - s))
  {}

  lemma ShrBit(b: byte, s: nat, i: nat)
    requires i < 8 && s <= 8
    ensures Bit(Shr(b, s), i) == (i + s < 8 && Bit(b, i + s))
  {}

  /** ORing one byte into a buffer changes only that byte's bits. */
  lemma OrByteAt(s: seq<byte>, k: nat, v: byte, p: nat)
    requires k < |s| && p < 8 * |s|
    ensures BitAt(s[k := s[k] | v], p) == (BitAt(s, p) || (p / 8 == k && Bit(v, p % 8)))
  {
    if p / 8 == k {
      OrBit(s[k], v, p % 8);
    }
  }

  /** The two ORs that place one source byte at bit offset 8 * k + shift. */
  lemma PlaceByte(s: seq<byte>, k: nat, shift: nat, v: byte, p: nat)
    requires k + 1 < |s| && shift < 8 && p < 8 * |s|
    ensures var t := s[k := s[k] | Shl(v, shift)];
            BitAt(t[k + 1 := t[k + 1] | Shr(v, 8 - shift)], p)
            == (BitAt(s, p) || (8 * k + shift <= p < 8 * k + shift + 8 && Bit(v, p - 8 * k - shift)))
  {
    hide *;
    var l, h := Shl(v, shift), Shr(v, 8 - shift);
    var t := s[k := s[k] | l];
    OrByteAt(s, k, l, p);
    OrByteAt(t, k + 1, h, p);
    var q, i := p / 8, p % 8;
    assert p == 8 * q + i;
    if q == k {
      ShlBit(v, shift, i);
    } else if q == k + 1 {
      ShrBit(v, 8 - shift, i);
    }
  }

  /** A byte with no bit set at or above n. */
  ghost predicate Narrow(v: byte, n: nat) {
    forall i :: n <= i < 8 ==> !Bit(v, i)
  }

  /** A narrow byte that does not cross a byte boundary needs only the first OR. */
  lemma PlaceNarrow(s: seq<byte>, k: nat, shift: nat, v: byte, n: nat, p: nat)
    requires k < |s| && shift + n <= 8 && Narrow(v, n) && p < 8 * |s|
    ensures BitAt(s[k := s[k] | Shl(v, shift)], p)
            == (BitAt(s, p) || (8 * k + shift <= p < 8 * k + shift + n && Bit(v, p - 8 * k - shift)))
  {
    hide Bit, Shl, Shr, BitAt;
    OrByteAt(s, k, Shl(v, shift), p);
    var q, i := p / 8, p % 8;
    assert p == 8 * q + i;
    if q == k {
      ShlBit(v, shift, i);
    }
  }

  lemma BitAtIndex(s: seq<byte>, k: nat, i: nat)
    requires k < |s| && i < 8
    ensures BitAt(s, 8 * k + i) == Bit(s[k], i)
  {
    assert (8 * k + i) / 8 == k && (8 * k + i) % 8 == i;
  }
}
