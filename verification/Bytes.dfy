/** Bytes, the 16-bit words they make up, and their exclusive or. */
module Bytes {
  type Byte = b: int | 0 <= b < 0x100
  type Word = w: int | 0 <= w < 0x1_0000

  /** Exclusive or with a mask, which the language has on bit vectors. */
  function Xor(b: Byte, mask: bv8): Byte {
    ((b as bv8) ^ mask) as int
  }

  lemma BitsAsByte(x: bv8)
    ensures (x as int) as bv8 == x
  {
  }

  lemma BitsTwice(x: bv8, mask: bv8)
    ensures (x ^ mask) ^ mask == x
  {
  }

  /** The mask applied once more gives the octet back. */
  lemma XorUndoes(x: bv8, mask: bv8, b: Byte)
    requires b == (x ^ mask) as int
    ensures Xor(b, mask) == x as int
  {
    BitsAsByte(x ^ mask);
    BitsTwice(x, mask);
  }
}
