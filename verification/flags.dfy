/** The simulator's one-bit registers (src/simulator/Flags.ts): the
    indirection bit I, the stop flag S, the carry E, the interrupt flip-flop
    R, the interrupt enable IEN and the input and output flags FGI and FGO. */
module MachineFlags {

  datatype Flags = Flags(
    indirection: bool,
    stop: bool,
    overflow: bool,
    interrupt: bool,
    interruptEnable: bool,
    input: bool,
    output: bool)

  /** `new Flags()`: the machine starts stopped, with the output device
      ready and every other flag clear. */
  function Default(): (f: Flags)
    ensures f.stop && f.output
    ensures !f.indirection && !f.overflow && !f.interrupt && !f.interruptEnable && !f.input
  {
    Flags(false, true, false, false, false, false, true)
  }
}
