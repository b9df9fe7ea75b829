/** Machine integers. */
module MachineWord {
  /** One more than the largest size_t: its arithmetic wraps around. */
  const WORD: nat := 0x1_0000_0000_0000_0000
}
