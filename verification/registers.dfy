/** The simulator's register file (src/simulator/RegisterFile.ts): every
    register but the sequence counter is masked to its width on every
    write, and the program counter starts at 2. */
module Registers {

  /** The program counter after a reset. */
  const DEFAULT_PC: int := 0x002

  /** The masked registers. */
  datatype Register = DR | AR | AC | IR | PC | TR | INPR | OUTR

  /** One more than the largest value a register holds: `& 0xFFF` for the
      address registers, `& 0xFF` for the character registers, `& 0xFFFF`
      for the rest. */
  function Modulus(reg: Register): int {
    match reg
    case AR => 0x1000
    case PC => 0x1000
    case INPR => 0x100
    case OUTR => 0x100
    case _ => 0x10000
  }

  /** The register values; `time` is the sequence counter T. */
  datatype RegisterFile = RegisterFile(
    data: int,
    address: int,
    accumulator: int,
    instruction: int,
    program: int,
    temporary: int,
    input: int,
    output: int,
    time: int)

  function Get(r: RegisterFile, reg: Register): int {
    match reg
    case DR => r.data
    case AR => r.address
    case AC => r.accumulator
    case IR => r.instruction
    case PC => r.program
    case TR => r.temporary
    case INPR => r.input
    case OUTR => r.output
  }

  /** Every masked register holds a value of its width. */
  predicate InRange(r: RegisterFile) {
    && 0 <= r.data < 0x10000 && 0 <= r.address < 0x1000 && 0 <= r.accumulator < 0x10000
    && 0 <= r.instruction < 0x10000 && 0 <= r.program < 0x1000 && 0 <= r.temporary < 0x10000
    && 0 <= r.input < 0x100 && 0 <= r.output < 0x100
  }

  lemma InRangeGet(r: RegisterFile)
    requires InRange(r)
    ensures forall reg: Register :: 0 <= Get(r, reg) < Modulus(reg)
  {
    forall reg: Register ensures 0 <= Get(r, reg) < Modulus(reg) {
    }
  }

  /** `new RegisterFile()`: all zero except the program counter. */
  function Default(): (r: RegisterFile)
    ensures InRange(r)
    ensures r.program == DEFAULT_PC && r.time == 0
    ensures forall reg: Register :: reg != PC ==> Get(r, reg) == 0
  {
    RegisterFile(0, 0, 0, 0, DEFAULT_PC, 0, 0, 0, 0)
  }

  /** A write through a setter: `x & mask`, which for every integer is
      the remainder of `x` modulo the register's modulus (negative `x`
      included). Nothing else changes. */
  function Set(r: RegisterFile, reg: Register, x: int): (s: RegisterFile)
    ensures 0 <= Get(s, reg) < Modulus(reg)
    ensures (x - Get(s, reg)) % Modulus(reg) == 0
    ensures forall other: Register :: other != reg ==> Get(s, other) == Get(r, other)
    ensures s.time == r.time
    ensures InRange(r) ==> InRange(s)
  {
    Assign(r, reg, x % Modulus(reg))
  }

  /** The field of `reg` replaced by `v`. */
  function Assign(r: RegisterFile, reg: Register, v: int): (s: RegisterFile)
    ensures Get(s, reg) == v
    ensures forall other: Register :: other != reg ==> Get(s, other) == Get(r, other)
    ensures s.time == r.time
    ensures InRange(r) && 0 <= v < Modulus(reg) ==> InRange(s)
  {
    match reg
    case DR => r.(data := v)
    case AR => r.(address := v)
    case AC => r.(accumulator := v)
    case IR => r.(instruction := v)
    case PC => r.(program := v)
    case TR => r.(temporary := v)
    case INPR => r.(input := v)
    case OUTR => r.(output := v)
  }

  /** Two register files that agree on every register and on T are equal. */
  lemma Extensionality(r: RegisterFile, s: RegisterFile)
    requires forall reg: Register :: Get(r, reg) == Get(s, reg)
    requires r.time == s.time
    ensures r == s
  {
    assert Get(r, DR) == Get(s, DR) && Get(r, AR) == Get(s, AR) && Get(r, AC) == Get(s, AC);
    assert Get(r, IR) == Get(s, IR) && Get(r, PC) == Get(s, PC) && Get(r, TR) == Get(s, TR);
    assert Get(r, INPR) == Get(s, INPR) && Get(r, OUTR) == Get(s, OUTR);
  }

  /** A setter stores a value already of the register's width unchanged. */
  lemma SetInRange(r: RegisterFile, reg: Register, x: int)
    requires 0 <= x < Modulus(reg)
    ensures Get(Set(r, reg, x), reg) == x
  {
  }

  /** A value already of the register's width is stored as it is. */
  lemma SetWithinWidth(r: RegisterFile, reg: Register, x: int)
    requires 0 <= x < Modulus(reg)
    ensures Set(r, reg, x) == Assign(r, reg, x)
  {
  }

  /** Writing a register twice keeps only the second write. */
  lemma SetTwice(r: RegisterFile, reg: Register, x: int, y: int)
    ensures Set(Set(r, reg, x), reg, y) == Set(r, reg, y)
  {
    Extensionality(Set(Set(r, reg, x), reg, y), Set(r, reg, y));
  }

  /** Writing back what a register holds changes nothing: the setters are
      idempotent. */
  lemma SetSame(r: RegisterFile, reg: Register)
    requires InRange(r)
    ensures Set(r, reg, Get(r, reg)) == r
  {
    Extensionality(Set(r, reg, Get(r, reg)), r);
  }

  /** Writes to two different registers commute. */
  lemma SetCommutes(r: RegisterFile, a: Register, x: int, b: Register, y: int)
    requires a != b
    ensures Set(Set(r, a, x), b, y) == Set(Set(r, b, y), a, x)
  {
    Extensionality(Set(Set(r, a, x), b, y), Set(Set(r, b, y), a, x));
  }
}
