/**
 * Conversions between integers and 8-bit registers, as C performs them, and
 * the single-bit operations device models apply to status registers.
 */
module Bytes {

  /** `b` read as a two's-complement byte (the C cast to `int8_t`). */
  function SignedByte(b: bv8): (r: int)
    ensures -128 <= r < 128
    ensures r % 256 == b as int
  {
    if b < 128 then b as int else b as int - 256
  }

  /** The byte whose unsigned value is `n`. */
  function ToByte(n: nat): (b: bv8)
    requires n < 256
    ensures b as int == n
  {
    if n == 0 then 0 else ToByte(n - 1) + 1
  }

  /** The C conversion of an integer to `uint8_t`: the low eight bits. */
  function Trunc8(x: int): (r: bv8)
    ensures r as int == x % 256
  {
    ToByte(x % 256)
  }

  /** The byte with only bit `i` set. */
  function Bit(i: nat): (b: bv8)
    requires i < 8
    ensures b == (1 as bv8) << i
  {
    match i
    case 0 => 1 case 1 => 2 case 2 => 4 case 3 => 8
    case 4 => 16 case 5 => 32 case 6 => 64 case _ => 128
  }

  /** Whether bit `i` of `m` is set. */
  predicate HasBit(m: bv8, i: nat)
    requires i < 8
  {
    m & Bit(i) != 0
  }

  /** `m` with bit `i` set. */
  function SetBit(m: bv8, i: nat): bv8
    requires i < 8
  {
    m | Bit(i)
  }

  /** Status byte `m` with bit `i` set when `on`. */
  function Mark(m: bv8, on: bool, i: nat): bv8
    requires i < 8
  {
    if on then SetBit(m, i) else m
  }

  /** Marking bit `i` sets bit `i` and leaves every other bit as it was. */
  lemma OrBit(m: bv8, i: nat, j: nat, on: bool)
    requires i < 8 && j < 8
    ensures HasBit(Mark(m, on, i), j) <==> HasBit(m, j) || (on && i == j)
  {
  }

  /** Two bytes with the same bits are equal. */
  lemma SameBits(a: bv8, b: bv8)
    requires forall i | 0 <= i < 8 :: HasBit(a, i) == HasBit(b, i)
    ensures a == b
  {
    assert HasBit(a, 0) == HasBit(b, 0) && HasBit(a, 1) == HasBit(b, 1);
    assert HasBit(a, 2) == HasBit(b, 2) && HasBit(a, 3) == HasBit(b, 3);
    assert HasBit(a, 4) == HasBit(b, 4) && HasBit(a, 5) == HasBit(b, 5);
    assert HasBit(a, 6) == HasBit(b, 6) && HasBit(a, 7) == HasBit(b, 7);
  }
}
