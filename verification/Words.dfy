/** The ranges of the machine words that the model makes explicit. */
module Words {
  const U32: nat := 0x1_0000_0000
  const U64: nat := 0x1_0000_0000_0000_0000
}
