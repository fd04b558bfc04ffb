/** Small machine words as values: bytes, and words of level bits, which are
    represented by the set of their one-bits. */
module Words {
  type Byte = x: int | 0 <= x < 0x100

  /** A level word after one bit of it has been set or cleared. */
  function WithBit(word: set<nat>, bit: nat, on: bool): set<nat> {
    if on then word + {bit} else word - {bit}
  }
}
