/** The type codes of a.out symbols, which relocations use for sections as well. */
module AoutTypes {
  import opened Words

  const N_UNDF: Byte := 0
  const N_EXT: Byte := 1
  const N_ABS: Byte := 2
  const N_TEXT: Byte := 4
  const N_DATA: Byte := 6
  const N_BSS: Byte := 8

  /** `& N_TYPE`. */
  function TypeBits(t: int): (b: Byte)
    ensures b % 2 == 0 && b < 0x20
  {
    t / 2 % 16 * 2
  }
}
