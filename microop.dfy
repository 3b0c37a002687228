/** A micro-op line of the trace, as the decoder records it. */
module MicroOps {
  import opened Common

  /**
   * The immutable micro-op record: the micro-op's own mnemonic, its
   * disassembly, its operation class (for instance `MemRead`), and the
   * `D=` data and `A=` address values when the line carries them.
   */
  datatype MicroOp = MicroOp(
    instruction: string,
    asm: string,
    kind: string,
    data: Option<int>,
    address: Option<int>)
}
