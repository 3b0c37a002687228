/** An instruction of the trace, which owns the micro-ops attached to it. */
module Instructions {
  import opened Common
  import opened MicroOps

  /** The scalar values an instruction is built from. */
  datatype InstrFields = InstrFields(
    tick: int,
    cpu: string,
    symbol: Option<string>,
    sourceLine: Option<string>,
    offset: Option<int>,
    address: Option<int>,
    asm: string)

  /**
   * The scalar attributes are fixed at construction (the accessors
   * `tick()` … `asm()` return them); only the micro-op list grows.
   */
  class Instruction {
    const tick: int
    const cpu: string
    const symbol: Option<string>
    const sourceLine: Option<string>
    const offset: Option<int>
    const address: Option<int>
    const asm: string
    var microOps: seq<MicroOp>

    constructor (tick: int, cpu: string, symbol: Option<string>, line: Option<string>,
                 offset: Option<int>, address: Option<int>, asm: string)
      ensures Fields() == InstrFields(tick, cpu, symbol, line, offset, address, asm)
      ensures microOps == [] && Len() == 0
    {
      this.tick := tick;
      this.cpu := cpu;
      this.symbol := symbol;
      this.sourceLine := line;
      this.offset := offset;
      this.address := address;
      this.asm := asm;
      microOps := [];
    }

    /** The constructor values, all at once. */
    function Fields(): InstrFields {
      InstrFields(tick, cpu, symbol, sourceLine, offset, address, asm)
    }

    /** `add_micro_op`: append at the end; the scalar attributes cannot change. */
    method AddMicroOp(op: MicroOp)
      modifies this
      ensures microOps == old(microOps) + [op]
      ensures Len() == old(Len()) + 1
    {
      microOps := microOps + [op];
    }

    /** `len(instr)`: the number of micro-ops attached. */
    function Len(): nat
      reads this
    {
      |microOps|
    }

    /** `iter(instr)`: the micro-ops in the order they were added. */
    method Iter() returns (ops: seq<MicroOp>)
      ensures ops == microOps
    {
      ops := microOps;
    }
  }
}
