/** The assembler's older register file (src/assembler/RegisterFile.ts):
    the same eight registers as the simulator's, but only the address and
    character registers are masked on a write. The data, accumulator,
    instruction and temporary registers keep whatever number they are
    given, and the constructor stores the program counter as given. It has
    no sequence counter. */
module LegacyRegisters {
  import Registers

  type Register = Registers.Register

  datatype LegacyFile = LegacyFile(
    data: int,
    address: int,
    accumulator: int,
    instruction: int,
    program: int,
    temporary: int,
    input: int,
    output: int)

  function Get(r: LegacyFile, reg: Register): int {
    match reg
    case DR => r.data
    case AR => r.address
    case AC => r.accumulator
    case IR => r.instruction
    case PC => r.program
    case TR => r.temporary
    case INPR => r.input
    case OUTR => r.output
  }

  /** The registers whose setter applies a mask: `& 0xFFF` for AR and PC,
      `& 0xFF` for INPR and OUTR. */
  predicate Masked(reg: Register) {
    reg.AR? || reg.PC? || reg.INPR? || reg.OUTR?
  }

  /** `new RegisterFile(program)`: PC unmasked, everything else zero. */
  function New(program: int): (r: LegacyFile)
    ensures Get(r, Registers.PC) == program
    ensures forall reg: Register :: !reg.PC? ==> Get(r, reg) == 0
  {
    LegacyFile(0, 0, 0, 0, program, 0, 0, 0)
  }

  /** A write through a setter. A masked register receives the remainder
      of `x` modulo its width (`x & mask` on any integer); any other
      register receives `x` itself. Nothing else changes. */
  function Set(r: LegacyFile, reg: Register, x: int): (s: LegacyFile)
    ensures Masked(reg) ==> 0 <= Get(s, reg) < Registers.Modulus(reg) && (x - Get(s, reg)) % Registers.Modulus(reg) == 0
    ensures !Masked(reg) ==> Get(s, reg) == x
    ensures forall other: Register :: other != reg ==> Get(s, other) == Get(r, other)
  {
    match reg
    case DR => r.(data := x)
    case AR => r.(address := x % 0x1000)
    case AC => r.(accumulator := x)
    case IR => r.(instruction := x)
    case PC => r.(program := x % 0x1000)
    case TR => r.(temporary := x)
    case INPR => r.(input := x % 0x100)
    case OUTR => r.(output := x % 0x100)
  }

  /** The simulator's register file holding the same values, at time `t`. */
  function AsSimulatorFile(r: LegacyFile, t: int): (s: Registers.RegisterFile)
    ensures forall reg: Register :: Registers.Get(s, reg) == Get(r, reg)
    ensures s.time == t
  {
    Registers.RegisterFile(r.data, r.address, r.accumulator, r.instruction, r.program, r.temporary, r.input, r.output, t)
  }

  /** Two legacy files that agree on every register are equal. */
  lemma Extensionality(r: LegacyFile, s: LegacyFile)
    requires forall reg: Register :: Get(r, reg) == Get(s, reg)
    ensures r == s
  {
    assert Get(r, Registers.DR) == Get(s, Registers.DR) && Get(r, Registers.AR) == Get(s, Registers.AR);
    assert Get(r, Registers.AC) == Get(s, Registers.AC) && Get(r, Registers.IR) == Get(s, Registers.IR);
    assert Get(r, Registers.PC) == Get(s, Registers.PC) && Get(r, Registers.TR) == Get(s, Registers.TR);
    assert Get(r, Registers.INPR) == Get(s, Registers.INPR) && Get(r, Registers.OUTR) == Get(s, Registers.OUTR);
  }

  /** Constructed with the simulator's reset value, the legacy file holds
      what the simulator's `new RegisterFile()` holds. */
  lemma NewAgreesWithDefault()
    ensures AsSimulatorFile(New(Registers.DEFAULT_PC), 0) == Registers.Default()
  {
    Registers.Extensionality(AsSimulatorFile(New(Registers.DEFAULT_PC), 0), Registers.Default());
  }

  /** The legacy constructor does not mask: a program counter beyond 12
      bits is kept as given. */
  lemma NewKeepsWideProgram()
    ensures Get(New(0x1002), Registers.PC) == 0x1002
    ensures !Registers.InRange(AsSimulatorFile(New(0x1002), 0))
  {
  }

  /** On masked registers, and on any register when the value already has
      the register's width, a legacy write and a simulator write agree. */
  lemma SetAgrees(r: LegacyFile, reg: Register, x: int, t: int)
    requires Masked(reg) || 0 <= x < Registers.Modulus(reg)
    ensures AsSimulatorFile(Set(r, reg, x), t) == Registers.Set(AsSimulatorFile(r, t), reg, x)
  {
    Registers.Extensionality(AsSimulatorFile(Set(r, reg, x), t), Registers.Set(AsSimulatorFile(r, t), reg, x));
  }

  /** The two files part ways exactly on an unmasked register written with
      a value outside its 16 bits. */
  lemma SetDisagrees(r: LegacyFile, reg: Register, x: int, t: int)
    requires !Masked(reg) && !(0 <= x < 0x10000)
    ensures Registers.Get(AsSimulatorFile(Set(r, reg, x), t), reg) == x
    ensures Registers.Get(Registers.Set(AsSimulatorFile(r, t), reg, x), reg) != x
  {
  }

  /** A concrete case: AC written with 0x10000 keeps it in the legacy file
      and wraps to 0 in the simulator's. */
  lemma AccumulatorOverflowKept(r: LegacyFile)
    ensures Get(Set(r, Registers.AC, 0x10000), Registers.AC) == 0x10000
    ensures Registers.Get(Registers.Set(AsSimulatorFile(r, 0), Registers.AC, 0x10000), Registers.AC) == 0
  {
  }

  /** Writing a register twice keeps only the second write. */
  lemma SetTwice(r: LegacyFile, reg: Register, x: int, y: int)
    ensures Set(Set(r, reg, x), reg, y) == Set(r, reg, y)
  {
    Extensionality(Set(Set(r, reg, x), reg, y), Set(r, reg, y));
  }

  /** Writes to two different registers commute. */
  lemma SetCommutes(r: LegacyFile, a: Register, x: int, b: Register, y: int)
    requires a != b
    ensures Set(Set(r, a, x), b, y) == Set(Set(r, b, y), a, x)
  {
    Extensionality(Set(Set(r, a, x), b, y), Set(Set(r, b, y), a, x));
  }
}
