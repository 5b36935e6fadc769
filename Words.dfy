/**
 * 32-bit device words: mask operations on registers, named so that
 * specifications and method bodies speak of the same terms, and words held
 * as numbers where the devices do address arithmetic on them.
 */
module Words {

  /** Whether some bit of mask `m` is set in `x`. */
  predicate Has(x: bv32, m: bv32)
  {
    x & m != 0
  }

  /** `x` with the bits of `m` set. */
  function With(x: bv32, m: bv32): bv32
  {
    x | m
  }

  /** `x` with the bits of `m` cleared. */
  function Without(x: bv32, m: bv32): bv32
  {
    x & !m
  }

  const WORD_RANGE: int := 0x1_0000_0000
  /** A 32-bit word, as a number. */
  type Word = w: int | 0 <= w < WORD_RANGE

  /** A register value as a number. */
  function Num(b: bv32): Word
  {
    b as int
  }

  /** A number as a register value. */
  function Reg(w: Word): bv32
  {
    w as bv32
  }

  /** A `uint32_t` sum: it wraps modulo 2^32. */
  function Wrap(x: int): Word
  {
    x % WORD_RANGE
  }

  /** Bit `e` of `x`. */
  predicate Digit(x: nat, e: nat)
  {
    if e == 0 then x % 2 == 1 else Digit(x / 2, e - 1)
  }

  /** No bit of zero is set. */
  lemma {:induction false} NoDigitOfZero(e: nat)
    ensures !Digit(0, e)
  {
    if e > 0 {
      NoDigitOfZero(e - 1);
    }
  }
}
