// What the allocator and the scheduler both assume of the machine.
module Machine {
  /** Cores beyond this number have no frame cache and no slot. */
  const CORES: nat := 32
}
