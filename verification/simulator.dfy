/** The micro-cycle simulator (src/simulator/Simulator.ts): a 4096-word
    memory of 16-bit words, the register file and the flags, advanced one
    timing step T0-T6 at a time. The model follows the code as written,
    including where it departs from Mano's register-transfer table; each
    such place is marked DIVERGENCE. */
module Simulator {
  import opened Results
  import opened Opcodes
  import opened Registers
  import opened MachineFlags

  const MEMORY_SIZE: int := 4096

  /** One more than the largest 16-bit word. */
  const WORD: int := 0x10000

  datatype Machine = Machine(memory: seq<int>, registers: RegisterFile, flags: Flags)

  /** A memory of the right size holding 16-bit words. */
  predicate ValidMemory(memory: seq<int>) {
    |memory| == MEMORY_SIZE && forall a :: 0 <= a < |memory| ==> 0 <= memory[a] < WORD
  }

  /** What every reachable machine satisfies: the memory and the
      registers hold values of their widths and T indexes one of the seven
      timing steps (`microStep` calls `steps[time]`). */
  predicate Valid(m: Machine) {
    ValidMemory(m.memory) && InRange(m.registers) && 0 <= m.registers.time <= 6
  }

  /** A write into the `Uint16Array` memory, which keeps the value modulo
      2^16. */
  function Store(memory: seq<int>, a: int, v: int): (s: seq<int>)
    requires ValidMemory(memory) && 0 <= a < MEMORY_SIZE
    ensures ValidMemory(s)
    ensures s[a] == v % WORD && (0 <= v < WORD ==> s[a] == v)
    ensures forall b :: 0 <= b < MEMORY_SIZE && b != a ==> s[b] == memory[b]
  {
    memory[a := v % WORD]
  }

  /** Bit 15 of a 16-bit word, the sign of the accumulator and the
      indirection bit of an instruction. */
  function Bit15(x: int): int {
    x / 0x8000 % 2
  }

  /** `IR & 0x7000`, the memory-reference opcode. */
  function Opcode(ir: int): int {
    Field(ir) * 0x1000
  }

  /** The constructor: zeroed memory, default registers and flags, T = 0. */
  function Init(): (m: Machine)
    ensures Valid(m)
    ensures forall a :: 0 <= a < MEMORY_SIZE ==> m.memory[a] == 0
    ensures m.registers == Registers.Default() && m.flags == MachineFlags.Default()
  {
    Machine(seq(MEMORY_SIZE, _ => 0), Registers.Default(), MachineFlags.Default())
  }

  function WithTime(m: Machine, t: int): Machine {
    m.(registers := m.registers.(time := t))
  }

  function WithRegister(m: Machine, reg: Register, x: int): Machine {
    m.(registers := Set(m.registers, reg, x))
  }

  /** T0: AR <- PC, or AR <- 0 and TR <- PC when an interrupt is pending. */
  function T0(m: Machine): (n: Machine)
    requires Valid(m)
    ensures Valid(n) && n.registers.time == 1
  {
    var r := m.registers;
    if m.flags.interrupt then
      WithTime(WithRegister(WithRegister(m, AR, 0), TR, r.program), 1)
    else
      WithTime(WithRegister(m, AR, r.program), 1)
  }

  /** T1: IR <- M[AR] and PC <- PC + 1, or M[AR] <- TR and PC <- 0 when an
      interrupt is pending. */
  function T1(m: Machine): (n: Machine)
    requires Valid(m)
    ensures Valid(n) && n.registers.time == 2
    ensures var r := m.registers;
            !m.flags.interrupt ==>
              n.memory == m.memory && n.registers.instruction == m.memory[r.address]
              && n.registers.program == (r.program + 1) % 0x1000
    ensures var r := m.registers;
            m.flags.interrupt ==>
              n.memory == m.memory[r.address := r.temporary] && n.registers.program == 0
              && n.registers.instruction == r.instruction
    ensures n.flags == m.flags && n.registers.address == m.registers.address
  {
    var r := m.registers;
    if m.flags.interrupt then
      WithTime(WithRegister(m.(memory := Store(m.memory, r.address, r.temporary)), PC, 0), 2)
    else
      WithTime(WithRegister(WithRegister(m, IR, m.memory[r.address]), PC, r.program + 1), 2)
  }

  /** T2: AR <- IR[0..11] and I <- IR[15]; or, for an interrupt,
      PC <- PC + 1, IEN <- 0, R <- 0 and back to T0. */
  function T2(m: Machine): (n: Machine)
    requires Valid(m)
    ensures Valid(n) && n.registers.time in {0, 3}
  {
    var r := m.registers;
    if m.flags.interrupt then
      var n := WithTime(WithRegister(m, PC, r.program + 1), 0);
      n.(flags := n.flags.(interrupt := false, interruptEnable := false))
    else
      var n := WithTime(WithRegister(m, AR, r.instruction), 3);
      n.(flags := n.flags.(indirection := Bit15(r.instruction) == 1))
  }

  /** `AC = ~AC` through the masking setter. */
  function Complement(ac: int): int {
    (-ac - 1) % WORD
  }

  /** CIR as written: `AC = AC >> 1; AC |= (AC & 1) << 15`, each through
      the masking setter; bit 15 of the shifted value is clear, so the OR
      adds. */
  function RotateRight(ac: int): int
    requires 0 <= ac < WORD
  {
    var low := ac % 2;
    var shifted := ac / 2 % WORD;
    (shifted + low * 0x8000) % WORD
  }

  /** CIL as written: `AC = AC << 1; AC |= (AC & 0x8000) >> 15`; bit 0 of
      the shifted value is clear, so the OR adds. */
  function RotateLeft(ac: int): int
    requires 0 <= ac < WORD
  {
    var high := ac / 0x8000;
    var shifted := ac * 2 % WORD;
    (shifted + high) % WORD
  }

  function SkipIf(m: Machine, condition: bool): Machine {
    if condition then WithRegister(m, PC, m.registers.program + 1) else m
  }

  /** The register-reference codes that work on AC and E. DIVERGENCE: CIR
      and CIL leave E alone (src/simulator/Simulator.ts:173-184).
      DIVERGENCE: the CME case label (src/simulator/Simulator.ts:169) is
      spelled with Cyrillic letters, so it names no code and CME falls to
      the default, like any unrecognized code: nothing but T changes. */
  function AccumulatorStep(m: Machine): (n: Machine)
    requires Valid(m)
    ensures Valid(n) && n.registers.time == m.registers.time
    ensures n.memory == m.memory
    ensures n.registers == m.registers.(accumulator := n.registers.accumulator)
    ensures n.flags == m.flags.(overflow := n.flags.overflow)
    ensures n.flags.overflow != m.flags.overflow ==> m.registers.instruction == CLE
  {
    var ir := m.registers.instruction;
    var ac := m.registers.accumulator;
    if ir == CLA then WithRegister(m, AC, 0)
    else if ir == CLE then m.(flags := m.flags.(overflow := false))
    else if ir == CMA then WithRegister(m, AC, Complement(ac))
    else if ir == CIR then WithRegister(m, AC, RotateRight(ac))
    else if ir == CIL then WithRegister(m, AC, RotateLeft(ac))
    else if ir == INC then WithRegister(m, AC, ac + 1)
    else m
  }

  /** The skip, halt and input-output codes. */
  function ControlStep(m: Machine): (n: Machine)
    requires Valid(m)
    ensures Valid(n) && n.registers.time == m.registers.time
    ensures n.memory == m.memory
    ensures n.registers == m.registers.(program := n.registers.program, accumulator := n.registers.accumulator,
                                        output := n.registers.output)
    ensures n.flags.overflow == m.flags.overflow && n.flags.interrupt == m.flags.interrupt
            && n.flags.indirection == m.flags.indirection
    ensures n.registers.program != m.registers.program ==> n.registers.program == (m.registers.program + 1) % 0x1000
  {
    var r := m.registers;
    var f := m.flags;
    var ir := r.instruction;
    if ir == SPA then SkipIf(m, Bit15(r.accumulator) == 0)
    else if ir == SNA then SkipIf(m, Bit15(r.accumulator) == 1)
    else if ir == SZA then SkipIf(m, r.accumulator == 0)
    else if ir == SZE then SkipIf(m, !f.overflow)
    else if ir == HLT then m.(flags := f.(stop := true))
    else if ir == INP then WithRegister(m, AC, r.input).(flags := f.(input := false))
    else if ir == OUT then WithRegister(m, OUTR, r.accumulator).(flags := f.(output := false))
    else if ir == SKI then SkipIf(m, f.input)
    else if ir == SKO then SkipIf(m, f.output)
    else if ir == ION then m.(flags := f.(interruptEnable := true))
    else if ir == IOF then m.(flags := f.(interruptEnable := false))
    else m
  }

  /** The accumulator codes, matched against the whole instruction word. */
  predicate IsAccumulatorCode(ir: int) {
    ir in {CLA, CLE, CMA, CIR, CIL, INC}
  }

  /** T3 for a word with bits 12-14 set: the code is executed and T goes
      back to 0, whether or not the code is recognized. */
  function RegisterReference(m: Machine): (n: Machine)
    requires Valid(m)
    ensures Valid(n) && n.registers.time == 0
    ensures n.memory == m.memory && n.registers.address == m.registers.address
            && n.registers.instruction == m.registers.instruction
  {
    var n := if IsAccumulatorCode(m.registers.instruction) then AccumulatorStep(m) else ControlStep(m);
    WithTime(n, 0)
  }

  /** T3: a memory-reference instruction resolves an indirect address
      (AR <- M[AR]) and goes on to T4; any other word is executed here. */
  function T3(m: Machine): (n: Machine)
    requires Valid(m)
    ensures Valid(n) && n.registers.time in {0, 4}
  {
    var r := m.registers;
    if Field(r.instruction) != 7 then
      var n := if m.flags.indirection then WithRegister(m, AR, m.memory[r.address]) else m;
      WithTime(n, 4)
    else
      RegisterReference(m)
  }

  /** T4: read the operand, or finish STA and BUN, or store the return
      address for BSA. An opcode with no case (`111`) goes back to T0. */
  function T4(m: Machine): (n: Machine)
    requires Valid(m)
    ensures Valid(n) && n.registers.time in {0, 5}
  {
    var r := m.registers;
    var op := Opcode(r.instruction);
    if op == AND || op == ADD || op == LDA || op == ISZ then
      WithTime(WithRegister(m, DR, m.memory[r.address]), 5)
    else if op == STA then
      WithTime(m.(memory := Store(m.memory, r.address, r.accumulator)), 0)
    else if op == BUN then
      WithTime(WithRegister(m, PC, r.address), 0)
    else if op == BSA then
      WithTime(WithRegister(m.(memory := Store(m.memory, r.address, r.program)), AR, r.address + 1), 5)
    else
      WithTime(m, 0)
  }

  /** `AC & DR` on 16-bit values, bit by bit from the least significant:
      a bit of the result is set exactly when it is set in both operands. */
  function BitAnd(a: int, b: int): (c: int)
    requires 0 <= a < WORD && 0 <= b < WORD
    ensures 0 <= c <= a && c <= b
    decreases a
  {
    if a == 0 || b == 0 then 0
    else 2 * BitAnd(a / 2, b / 2) + (if a % 2 == 1 && b % 2 == 1 then 1 else 0)
  }

  /** AND does not depend on the order of its operands. */
  lemma {:induction false} BitAndCommutes(a: int, b: int)
    requires 0 <= a < WORD && 0 <= b < WORD
    ensures BitAnd(a, b) == BitAnd(b, a)
    decreases a
  {
    if a != 0 && b != 0 {
      BitAndCommutes(a / 2, b / 2);
    }
  }

  /** A word ANDed with itself is unchanged. */
  lemma {:induction false} BitAndSelf(a: int)
    requires 0 <= a < WORD
    ensures BitAnd(a, a) == a
    decreases a
  {
    if a != 0 {
      BitAndSelf(a / 2);
    }
  }

  /** T5: the second half of AND, ADD, LDA, BSA and ISZ. DIVERGENCE: AND,
      ADD and LDA return without resetting T
      (src/simulator/Simulator.ts:299-312), so T stays 5. */
  function T5(m: Machine): (n: Machine)
    requires Valid(m) && m.registers.time == 5
    ensures Valid(n) && n.registers.time in {0, 5, 6}
  {
    var r := m.registers;
    var op := Opcode(r.instruction);
    if op == AND then
      WithRegister(m, AC, BitAnd(r.accumulator, r.data))
    else if op == ADD then
      var sum := r.accumulator + r.data;
      var n := WithRegister(m, AC, sum);
      n.(flags := n.flags.(overflow := sum / WORD % 2 == 1))
    else if op == LDA then
      WithRegister(m, AC, r.data)
    else if op == BSA then
      WithTime(WithRegister(m, PC, r.address), 0)
    else if op == ISZ then
      WithTime(WithRegister(m, DR, r.data + 1), 6)
    else
      WithTime(m, 0)
  }

  /** T6 of ISZ: M[AR] <- DR. DIVERGENCE: the skip test is written
      `if (DR = 0)` (src/simulator/Simulator.ts:334), an assignment whose
      value 0 is false: DR becomes 0 and PC is never incremented. */
  function T6(m: Machine): (n: Machine)
    requires Valid(m)
    ensures Valid(n) && n.registers.time == 0
    ensures n.memory == m.memory[m.registers.address := m.registers.data]
    ensures n.registers == m.registers.(data := 0, time := 0) && n.flags == m.flags
  {
    var r := m.registers;
    var n := WithRegister(m.(memory := Store(m.memory, r.address, r.data)), DR, 0);
    WithTime(n, 0)
  }

  /** `microStep`: the timing step T selects. The stop flag is not
      consulted. */
  function MicroStep(m: Machine): (n: Machine)
    requires Valid(m)
    ensures Valid(n)
  {
    var t := m.registers.time;
    if t == 0 then T0(m)
    else if t == 1 then T1(m)
    else if t == 2 then T2(m)
    else if t == 3 then T3(m)
    else if t == 4 then T4(m)
    else if t == 5 then T5(m)
    else T6(m)
  }

  /** `macroStep`: micro-steps until T is 0. The source loops with no
      bound; here `fuel` bounds the steps and `None` stands for running
      out of it. */
  function MacroStep(m: Machine, fuel: nat): (r: Option<Machine>)
    requires Valid(m)
    ensures r.Some? ==> Valid(r.value) && r.value.registers.time == 0
    decreases fuel
  {
    if m.registers.time == 0 then Some(m)
    else if fuel == 0 then None
    else MacroStep(MicroStep(m), fuel - 1)
  }

  /** A block of words placed at `origin`. */
  datatype Segment = Segment(origin: int, binary: seq<int>)

  predicate Covers(s: Segment, a: int) {
    s.origin <= a < s.origin + |s.binary|
  }

  /** Every segment lies inside memory; `Uint16Array.set` throws
      otherwise. */
  predicate Fits(program: seq<Segment>) {
    forall i :: 0 <= i < |program| ==> 0 <= program[i].origin && program[i].origin + |program[i].binary| <= MEMORY_SIZE
  }

  /** `memory.set(segment.binary, segment.origin)`. */
  function Copy(memory: seq<int>, s: Segment): (c: seq<int>)
    requires ValidMemory(memory)
    requires 0 <= s.origin && s.origin + |s.binary| <= MEMORY_SIZE
    ensures ValidMemory(c)
    ensures forall a :: 0 <= a < MEMORY_SIZE ==> c[a] == if Covers(s, a) then s.binary[a - s.origin] % WORD else memory[a]
  {
    memory[..s.origin] + seq(|s.binary|, i requires 0 <= i < |s.binary| => s.binary[i] % WORD) + memory[s.origin + |s.binary|..]
  }

  /** The segments copied in order, later ones over earlier ones. */
  function Place(memory: seq<int>, program: seq<Segment>): (p: seq<int>)
    requires ValidMemory(memory) && Fits(program)
    ensures ValidMemory(p)
  {
    if |program| == 0 then memory
    else Copy(Place(memory, program[..|program| - 1]), program[|program| - 1])
  }

  /** `load`: an empty program changes nothing; otherwise memory is zeroed
      and the segments copied in, and the registers and flags are reset.
      DIVERGENCE: the first segment's origin is passed to a register-file
      constructor that takes no argument (src/simulator/Simulator.ts:74,
      src/simulator/RegisterFile.ts:14), so PC is 2 and the machine is left
      stopped. */
  function Load(m: Machine, program: seq<Segment>): (n: Machine)
    requires Valid(m) && Fits(program)
    ensures Valid(n)
    ensures |program| > 0 ==> n.registers.program == DEFAULT_PC && n.registers.time == 0 && n.flags.stop
  {
    if |program| == 0 then m
    else Machine(Place(Init().memory, program), Registers.Default(), MachineFlags.Default())
  }

  // Properties of single timing steps.

  /** A register file with AC replaced; T is set to `t`. */
  function WithAccumulator(m: Machine, v: int, t: int): Machine {
    m.(registers := m.registers.(accumulator := v, time := t))
  }

  /** CLA, CLE and INC at T3 do what Mano's table says; T returns to 0. */
  lemma ClearAndIncrementCodes(m: Machine)
    requires Valid(m) && m.registers.time == 3 && Field(m.registers.instruction) == 7
    ensures var ir := m.registers.instruction; var ac := m.registers.accumulator;
            && (ir == CLA ==> MicroStep(m) == WithAccumulator(m, 0, 0))
            && (ir == CLE ==> MicroStep(m) == WithTime(m, 0).(flags := m.flags.(overflow := false)))
            && (ir == INC ==> MicroStep(m) == WithAccumulator(m, (ac + 1) % WORD, 0))
  {
  }

  /** CMA at T3 leaves the ones' complement of AC in AC. */
  lemma ComplementCode(m: Machine)
    requires Valid(m) && m.registers.time == 3 && m.registers.instruction == CMA
    ensures MicroStep(m) == WithAccumulator(m, 0xFFFF - m.registers.accumulator, 0)
  {
    ComplementMeaning(m.registers.accumulator);
  }

  /** CIR at T3 rotates AC right by one place; E is neither shifted in
      nor out. */
  lemma RotateRightCode(m: Machine)
    requires Valid(m) && m.registers.time == 3 && m.registers.instruction == CIR
    ensures var ac := m.registers.accumulator;
            MicroStep(m) == WithAccumulator(m, ac / 2 + ac % 2 * 0x8000, 0)
  {
    RotateRightMeaning(m.registers.accumulator);
  }

  /** CIL at T3 rotates AC left by one place; E is neither shifted in nor
      out. */
  lemma RotateLeftCode(m: Machine)
    requires Valid(m) && m.registers.time == 3 && m.registers.instruction == CIL
    ensures var ac := m.registers.accumulator;
            MicroStep(m) == WithAccumulator(m, ac % 0x8000 * 2 + ac / 0x8000, 0)
  {
    RotateLeftMeaning(m.registers.accumulator);
  }

  /** The conditional skips at T3 advance PC by one, modulo 4096, exactly
      when their condition holds. */
  lemma SkipCodes(m: Machine)
    requires Valid(m) && m.registers.time == 3 && Field(m.registers.instruction) == 7
    ensures var r := m.registers; var f := m.flags; var ir := r.instruction;
            var skipped := m.(registers := r.(program := (r.program + 1) % 0x1000, time := 0));
            && (ir == SPA ==> MicroStep(m) == if r.accumulator < 0x8000 then skipped else WithTime(m, 0))
            && (ir == SNA ==> MicroStep(m) == if r.accumulator >= 0x8000 then skipped else WithTime(m, 0))
            && (ir == SZA ==> MicroStep(m) == if r.accumulator == 0 then skipped else WithTime(m, 0))
            && (ir == SZE ==> MicroStep(m) == if !f.overflow then skipped else WithTime(m, 0))
            && (ir == SKI ==> MicroStep(m) == if f.input then skipped else WithTime(m, 0))
            && (ir == SKO ==> MicroStep(m) == if f.output then skipped else WithTime(m, 0))
  {
  }

  /** HLT and the input-output transfers at T3. */
  lemma ControlCodes(m: Machine)
    requires Valid(m) && m.registers.time == 3 && Field(m.registers.instruction) == 7
    ensures var r := m.registers; var f := m.flags; var ir := r.instruction;
            && (ir == HLT ==> MicroStep(m) == WithTime(m, 0).(flags := f.(stop := true)))
            && (ir == INP ==> MicroStep(m) == WithAccumulator(m, r.input, 0).(flags := f.(input := false)))
            && (ir == OUT ==> MicroStep(m) == m.(registers := r.(output := r.accumulator % 0x100, time := 0), flags := f.(output := false)))
            && (ir == ION ==> MicroStep(m) == WithTime(m, 0).(flags := f.(interruptEnable := true)))
            && (ir == IOF ==> MicroStep(m) == WithTime(m, 0).(flags := f.(interruptEnable := false)))
  {
  }

  /** Any other word with bits 12-14 set, CME among them, changes nothing
      but T, which returns to 0. */
  lemma UnrecognizedCode(m: Machine)
    requires Valid(m) && m.registers.time == 3 && Field(m.registers.instruction) == 7
    requires m.registers.instruction !in {CLA, CLE, CMA, CIR, CIL, INC, SPA, SNA, SZA, SZE, HLT, INP, OUT, SKI, SKO, ION, IOF}
    ensures MicroStep(m) == WithTime(m, 0)
  {
  }

  /** CME is one of the unrecognized codes. */
  lemma ComplementCarryIgnored(m: Machine)
    requires Valid(m) && m.registers.time == 3 && m.registers.instruction == CME
    ensures MicroStep(m) == WithTime(m, 0)
  {
    UnrecognizedCode(m);
  }

  lemma ComplementMeaning(x: int)
    requires 0 <= x < WORD
    ensures Complement(x) == 0xFFFF - x
  {
    assert -x - 1 == (0xFFFF - x) - WORD;
  }

  lemma RotateRightMeaning(x: int)
    requires 0 <= x < WORD
    ensures RotateRight(x) == x / 2 + x % 2 * 0x8000
  {
    assert x / 2 < 0x8000;
    assert x / 2 % WORD == x / 2;
  }

  lemma RotateLeftMeaning(x: int)
    requires 0 <= x < WORD
    ensures RotateLeft(x) == x % 0x8000 * 2 + x / 0x8000
  {
    var high := x / 0x8000;
    assert x == high * 0x8000 + x % 0x8000;
    assert x * 2 == high * WORD + x % 0x8000 * 2;
    assert x * 2 % WORD == x % 0x8000 * 2;
  }

  /** CIR and CIL undo each other. */
  lemma RotationsInverse(x: int)
    requires 0 <= x < WORD
    ensures 0 <= RotateRight(x) < WORD && 0 <= RotateLeft(x) < WORD
    ensures RotateLeft(RotateRight(x)) == x && RotateRight(RotateLeft(x)) == x
  {
    RotateRightUndone(x);
    RotateLeftUndone(x);
  }

  lemma RotateRightUndone(x: int)
    requires 0 <= x < WORD
    ensures 0 <= RotateRight(x) < WORD && RotateLeft(RotateRight(x)) == x
  {
    RotateRightMeaning(x);
    var y := RotateRight(x);
    RotateLeftMeaning(y);
    assert y / 0x8000 == x % 2;
    assert y % 0x8000 == x / 2;
  }

  lemma RotateLeftUndone(x: int)
    requires 0 <= x < WORD
    ensures 0 <= RotateLeft(x) < WORD && RotateRight(RotateLeft(x)) == x
  {
    RotateLeftMeaning(x);
    var z := RotateLeft(x);
    RotateRightMeaning(z);
    assert z % 2 == x / 0x8000;
    assert z / 2 == x % 0x8000;
  }

  /** CMA undoes itself. */
  lemma ComplementInverse(x: int)
    requires 0 <= x < WORD
    ensures Complement(Complement(x)) == x
  {
    ComplementMeaning(x);
    ComplementMeaning(0xFFFF - x);
  }

  /** T3 of a memory-reference instruction: AR <- M[AR] when I is set,
      then T4. */
  lemma IndirectAddress(m: Machine)
    requires Valid(m) && m.registers.time == 3 && Field(m.registers.instruction) != 7
    ensures var r := m.registers;
            MicroStep(m) == m.(registers := r.(address := if m.flags.indirection then m.memory[r.address] % 0x1000 else r.address, time := 4))
  {
  }

  /** T4 and T5 of the memory-reference instructions. */
  lemma OperandSteps(m: Machine)
    requires Valid(m) && Field(m.registers.instruction) != 7
    ensures var r := m.registers; var op := Opcode(r.instruction); var word := m.memory[r.address];
            r.time == 4 ==>
              && (op in {AND, ADD, LDA, ISZ} ==> MicroStep(m) == m.(registers := r.(data := word, time := 5)))
              && (op == STA ==> MicroStep(m) == m.(memory := m.memory[r.address := r.accumulator], registers := r.(time := 0)))
              && (op == BUN ==> MicroStep(m) == m.(registers := r.(program := r.address, time := 0)))
              && (op == BSA ==> MicroStep(m) == m.(memory := m.memory[r.address := r.program], registers := r.(address := (r.address + 1) % 0x1000, time := 5)))
    ensures var r := m.registers; var op := Opcode(r.instruction);
            r.time == 5 ==>
              && (op == LDA ==> MicroStep(m) == WithAccumulator(m, r.data, 5))
              && (op == BSA ==> MicroStep(m) == m.(registers := r.(program := r.address, time := 0)))
              && (op == ISZ ==> MicroStep(m) == m.(registers := r.(data := (r.data + 1) % WORD, time := 6)))
  {
  }

  /** ADD at T5 keeps the carry: E:AC is the 17-bit sum of AC and DR. */
  lemma AddCarry(m: Machine)
    requires Valid(m) && m.registers.time == 5 && Opcode(m.registers.instruction) == ADD
    ensures var n := MicroStep(m);
            n.registers.accumulator + (if n.flags.overflow then WORD else 0) == m.registers.accumulator + m.registers.data
    ensures MicroStep(m).registers.time == 5
  {
  }

  /** AND at T5 leaves the bitwise AND of AC and DR in AC. */
  lemma AndStep(m: Machine)
    requires Valid(m) && m.registers.time == 5 && Opcode(m.registers.instruction) == AND
    ensures MicroStep(m) == WithAccumulator(m, BitAnd(m.registers.accumulator, m.registers.data), 5)
  {
    var r := m.registers;
    var c := BitAnd(r.accumulator, r.data);
    assert MicroStep(m) == T5(m) == WithRegister(m, AC, c);
    SetWithinWidth(r, AC, c);
  }

  /** T6 stores DR at AR; DR becomes 0 and PC is never advanced. */
  lemma IncrementStore(m: Machine)
    requires Valid(m) && m.registers.time == 6
    ensures var r := m.registers;
            MicroStep(m) == m.(memory := m.memory[r.address := r.data], registers := r.(data := 0, time := 0))
  {
  }

  /** Two machines that agree on everything but the stop flag. */
  predicate AgreeButStop(a: Machine, b: Machine) {
    && a.memory == b.memory && a.registers == b.registers
    && a.flags.indirection == b.flags.indirection && a.flags.overflow == b.flags.overflow
    && a.flags.interrupt == b.flags.interrupt && a.flags.interruptEnable == b.flags.interruptEnable
    && a.flags.input == b.flags.input && a.flags.output == b.flags.output
  }

  lemma StopIgnoredByT0(a: Machine, b: Machine)
    requires Valid(a) && Valid(b) && AgreeButStop(a, b)
    ensures AgreeButStop(T0(a), T0(b))
  {
  }

  lemma StopIgnoredByT1(a: Machine, b: Machine)
    requires Valid(a) && Valid(b) && AgreeButStop(a, b)
    ensures AgreeButStop(T1(a), T1(b))
  {
  }

  lemma StopIgnoredByT2(a: Machine, b: Machine)
    requires Valid(a) && Valid(b) && AgreeButStop(a, b)
    ensures AgreeButStop(T2(a), T2(b))
  {
  }

  lemma StopIgnoredByAccumulatorCodes(a: Machine, b: Machine)
    requires Valid(a) && Valid(b) && AgreeButStop(a, b)
    ensures AgreeButStop(AccumulatorStep(a), AccumulatorStep(b))
  {
    var ir := a.registers.instruction;
    if ir in {CLA, CLE, INC} {
      StopIgnoredByClears(a, b);
    } else if ir in {CMA, CIR, CIL} {
      StopIgnoredByRotations(a, b);
    } else {
      assert AccumulatorStep(a) == a && AccumulatorStep(b) == b;
    }
  }

  lemma StopIgnoredByClears(a: Machine, b: Machine)
    requires Valid(a) && Valid(b) && AgreeButStop(a, b)
    requires a.registers.instruction in {CLA, CLE, INC}
    ensures AgreeButStop(AccumulatorStep(a), AccumulatorStep(b))
  {
  }

  lemma StopIgnoredByRotations(a: Machine, b: Machine)
    requires Valid(a) && Valid(b) && AgreeButStop(a, b)
    requires a.registers.instruction in {CMA, CIR, CIL}
    ensures AgreeButStop(AccumulatorStep(a), AccumulatorStep(b))
  {
  }

  lemma StopIgnoredByControlCodes(a: Machine, b: Machine)
    requires Valid(a) && Valid(b) && AgreeButStop(a, b)
    ensures AgreeButStop(ControlStep(a), ControlStep(b))
  {
    var ir := a.registers.instruction;
    if ir in {SPA, SNA, SZA, SZE, SKI, SKO} {
      StopIgnoredBySkips(a, b);
    } else if ir in {HLT, INP, OUT, ION, IOF} {
      StopIgnoredByTransfers(a, b);
    } else {
      assert ControlStep(a) == a && ControlStep(b) == b;
    }
  }

  lemma StopIgnoredByTransfers(a: Machine, b: Machine)
    requires Valid(a) && Valid(b) && AgreeButStop(a, b)
    requires a.registers.instruction in {HLT, INP, OUT, ION, IOF}
    ensures AgreeButStop(ControlStep(a), ControlStep(b))
  {
  }

  lemma StopIgnoredBySkips(a: Machine, b: Machine)
    requires Valid(a) && Valid(b) && AgreeButStop(a, b)
    requires a.registers.instruction in {SPA, SNA, SZA, SZE, SKI, SKO}
    ensures AgreeButStop(ControlStep(a), ControlStep(b))
  {
  }

  lemma StopIgnoredByT3(a: Machine, b: Machine)
    requires Valid(a) && Valid(b) && AgreeButStop(a, b)
    ensures AgreeButStop(T3(a), T3(b))
  {
    if Field(a.registers.instruction) == 7 {
      StopIgnoredByAccumulatorCodes(a, b);
      StopIgnoredByControlCodes(a, b);
      assert AgreeButStop(RegisterReference(a), RegisterReference(b));
    }
  }

  lemma StopIgnoredByT4(a: Machine, b: Machine)
    requires Valid(a) && Valid(b) && AgreeButStop(a, b)
    ensures AgreeButStop(T4(a), T4(b))
  {
  }

  lemma StopIgnoredByT5(a: Machine, b: Machine)
    requires Valid(a) && Valid(b) && AgreeButStop(a, b) && a.registers.time == 5
    ensures AgreeButStop(T5(a), T5(b))
  {
  }

  lemma StopIgnoredByT6(a: Machine, b: Machine)
    requires Valid(a) && Valid(b) && AgreeButStop(a, b)
    ensures AgreeButStop(T6(a), T6(b))
  {
  }

  /** The stop flag has no say in a micro-step: machines that differ only
      in it step to machines that differ only in it. */
  lemma StopIgnored(a: Machine, b: Machine)
    requires Valid(a) && Valid(b) && AgreeButStop(a, b)
    ensures AgreeButStop(MicroStep(a), MicroStep(b))
  {
    match a.registers.time {
      case 0 => StopIgnoredByT0(a, b);
      case 1 => StopIgnoredByT1(a, b);
      case 2 => StopIgnoredByT2(a, b);
      case 3 => StopIgnoredByT3(a, b);
      case 4 => StopIgnoredByT4(a, b);
      case 5 => StopIgnoredByT5(a, b);
      case _ => StopIgnoredByT6(a, b);
    }
  }

  /** Started at T0 a macro-step does nothing. */
  lemma MacroStepIdle(m: Machine, fuel: nat)
    requires Valid(m) && m.registers.time == 0
    ensures MacroStep(m, fuel) == Some(m)
  {
  }

  /** More fuel does not change a finished macro-step. */
  lemma {:induction false} MacroStepFuel(m: Machine, fuel: nat, more: nat)
    requires Valid(m) && MacroStep(m, fuel).Some? && fuel <= more
    ensures MacroStep(m, more) == MacroStep(m, fuel)
    decreases fuel
  {
    if m.registers.time != 0 {
      var n := MicroStep(m);
      assert MacroStep(m, fuel) == MacroStep(n, fuel - 1);
      assert MacroStep(m, more) == MacroStep(n, more - 1);
      MacroStepFuel(n, fuel - 1, more - 1);
    }
  }

  /** AND, ADD and LDA never leave T5, so a macro-step from there runs out
      of any fuel: the source's `macroStep` does not return. */
  lemma {:induction false} StuckAtT5(m: Machine, fuel: nat)
    requires Valid(m) && m.registers.time == 5
    requires Opcode(m.registers.instruction) in {AND, ADD, LDA}
    ensures MacroStep(m, fuel) == None
    decreases fuel
  {
    if fuel > 0 {
      var n := MicroStep(m);
      assert n.registers.time == 5 && n.registers.instruction == m.registers.instruction;
      StuckAtT5(n, fuel - 1);
    }
  }

  /** The index of the last segment that covers address `a`, or -1. */
  function LastCovering(program: seq<Segment>, a: int): (j: int)
    ensures -1 <= j < |program|
    ensures 0 <= j ==> Covers(program[j], a)
    ensures forall i :: j < i < |program| ==> !Covers(program[i], a)
  {
    if |program| == 0 then -1
    else if Covers(program[|program| - 1], a) then |program| - 1
    else LastCovering(program[..|program| - 1], a)
  }

  /** Dropping the last segment keeps a program inside memory. */
  lemma FitsFront(program: seq<Segment>)
    requires Fits(program) && |program| > 0
    ensures Fits(program[..|program| - 1])
  {
    var front := program[..|program| - 1];
    forall i | 0 <= i < |front| ensures 0 <= front[i].origin && front[i].origin + |front[i].binary| <= MEMORY_SIZE {
      assert front[i] == program[i];
    }
  }

  /** After placing the segments, each word holds what the last segment
      covering it put there, or what was there before. */
  lemma {:induction false} PlaceMeaning(memory: seq<int>, program: seq<Segment>, a: int)
    requires ValidMemory(memory) && Fits(program) && 0 <= a < MEMORY_SIZE
    ensures var j := LastCovering(program, a);
            Place(memory, program)[a] == if j < 0 then memory[a] else program[j].binary[a - program[j].origin] % WORD
  {
    if |program| > 0 {
      var front := program[..|program| - 1];
      var last := program[|program| - 1];
      FitsFront(program);
      var p := Place(memory, front);
      assert Place(memory, program) == Copy(p, last);
      PlaceMeaning(memory, front, a);
      if !Covers(last, a) {
        var j := LastCovering(front, a);
        assert LastCovering(program, a) == j;
        if 0 <= j {
          assert front[j] == program[j];
        }
      }
    }
  }

  /** Loading an empty program changes nothing. */
  lemma LoadEmpty(m: Machine)
    requires Valid(m)
    ensures Load(m, []) == m
  {
  }

  /** A non-empty program loads the same machine whatever was there before. */
  lemma LoadForgetsMachine(a: Machine, b: Machine, program: seq<Segment>)
    requires Valid(a) && Valid(b) && Fits(program) && |program| > 0
    ensures Load(a, program) == Load(b, program)
  {
  }

  /** Loading the same program twice is loading it once. */
  lemma LoadIdempotent(m: Machine, program: seq<Segment>)
    requires Valid(m) && Fits(program)
    ensures Load(Load(m, program), program) == Load(m, program)
  {
    if |program| > 0 {
      LoadForgetsMachine(Load(m, program), m, program);
    }
  }

  /** Loading a program resets the registers and flags whatever the first
      origin: PC is 2, T is 0 and the machine is stopped; each word of
      memory holds what the last segment covering it says, and 0 where no
      segment reaches. */
  lemma LoadMeaning(m: Machine, program: seq<Segment>)
    requires Valid(m) && Fits(program) && |program| > 0
    ensures var n := Load(m, program);
            && n.registers == Registers.Default() && n.registers.program == DEFAULT_PC && n.registers.time == 0
            && n.flags == MachineFlags.Default() && n.flags.stop
    ensures var n := Load(m, program);
            forall a :: 0 <= a < MEMORY_SIZE ==>
              var j := LastCovering(program, a);
              n.memory[a] == if j < 0 then 0 else program[j].binary[a - program[j].origin] % WORD
  {
    var n := Load(m, program);
    forall a | 0 <= a < MEMORY_SIZE
      ensures var j := LastCovering(program, a);
              n.memory[a] == if j < 0 then 0 else program[j].binary[a - program[j].origin] % WORD
    {
      PlaceMeaning(Init().memory, program, a);
    }
  }
}
