/** The machine's numbers: 32-bit words and pages of 4096 bytes. */
module Machine {
  const WORD: nat := 0x1_0000_0000
  const PAGE: nat := 4096
}
