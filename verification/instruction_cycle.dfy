/** Whole instruction cycles of the simulator (src/simulator/Simulator.ts:
    92-336): the fetch and interrupt sequences of T0-T2, and what each
    memory-reference instruction leaves behind once `macroStep` has run it
    back to T0. */
module InstructionCycle {
  import opened Results
  import opened Opcodes
  import opened Registers
  import opened MachineFlags
  import opened Simulator

  /** The machine after fetch and decode: AR holds the address part of the
      word at PC, IR the word, I its bit 15, PC has advanced, and T is 3. */
  function Decoded(m: Machine): Machine
    requires Valid(m)
  {
    var r := m.registers;
    var w := m.memory[r.program];
    m.(registers := r.(address := w % 0x1000, instruction := w, program := (r.program + 1) % 0x1000, time := 3),
       flags := m.flags.(indirection := w >= 0x8000))
  }

  /** Without a pending interrupt, T0-T2 fetch and decode the word at PC. */
  lemma FetchPath(m: Machine)
    requires Valid(m) && m.registers.time == 0 && !m.flags.interrupt
    ensures MicroStep(m).registers.time == 1
    ensures MicroStep(MicroStep(m)).registers.time == 2
    ensures MicroStep(MicroStep(MicroStep(m))) == Decoded(m)
  {
    var r := m.registers;
    var w := m.memory[r.program];
    var m1 := m.(registers := r.(address := r.program, time := 1));
    FetchAddress(m);
    var m2 := m1.(registers := m1.registers.(instruction := w, program := (r.program + 1) % 0x1000, time := 2));
    FetchWord(m1);
    FetchDecode(m2);
  }

  lemma FetchAddress(m: Machine)
    requires Valid(m) && m.registers.time == 0 && !m.flags.interrupt
    ensures MicroStep(m) == m.(registers := m.registers.(address := m.registers.program, time := 1))
  {
  }

  lemma FetchWord(m: Machine)
    requires Valid(m) && m.registers.time == 1 && !m.flags.interrupt
    ensures var r := m.registers;
            MicroStep(m) == m.(registers := r.(instruction := m.memory[r.address], program := (r.program + 1) % 0x1000, time := 2))
  {
  }

  lemma FetchDecode(m: Machine)
    requires Valid(m) && m.registers.time == 2 && !m.flags.interrupt
    ensures var r := m.registers;
            MicroStep(m) == m.(registers := r.(address := r.instruction % 0x1000, time := 3),
                               flags := m.flags.(indirection := r.instruction >= 0x8000))
  {
    assert Bit15(m.registers.instruction) == 1 <==> m.registers.instruction >= 0x8000;
  }

  /** With an interrupt pending, T0-T2 save PC at address 0, continue at
      address 1, clear R and IEN, and return to T0. */
  lemma InterruptPath(m: Machine)
    requires Valid(m) && m.registers.time == 0 && m.flags.interrupt
    ensures var r := m.registers;
            MicroStep(MicroStep(MicroStep(m)))
            == m.(memory := m.memory[0 := r.program],
                  registers := r.(address := 0, temporary := r.program, program := 1, time := 0),
                  flags := m.flags.(interrupt := false, interruptEnable := false))
  {
  }

  /** The effective address of a decoded memory-reference word. */
  function Effective(d: Machine): int
    requires Valid(d)
  {
    if d.flags.indirection then d.memory[d.registers.address] % 0x1000 else d.registers.address
  }

  /** A macro-step from a non-zero T is one micro-step and the rest. */
  lemma MacroStepUnfold(m: Machine, fuel: nat)
    requires Valid(m) && m.registers.time != 0 && fuel > 0
    ensures MacroStep(m, fuel) == MacroStep(MicroStep(m), fuel - 1)
  {
  }

  /** The machine after T3 of a memory-reference word. */
  function Resolved(d: Machine): (e: Machine)
    requires Valid(d)
  {
    d.(registers := d.registers.(address := Effective(d), time := 4))
  }

  lemma ResolvedStep(d: Machine)
    requires Valid(d) && d.registers.time == 3 && Field(d.registers.instruction) != 7
    ensures MicroStep(d) == Resolved(d) && Valid(Resolved(d))
  {
    IndirectAddress(d);
  }

  /** STA stores AC at the effective address in T3-T4. */
  lemma StoreAccumulator(d: Machine, fuel: nat)
    requires Valid(d) && d.registers.time == 3 && Opcode(d.registers.instruction) == STA
    requires fuel >= 2
    ensures var a := Effective(d); var r := d.registers;
            MacroStep(d, fuel) == Some(d.(memory := d.memory[a := r.accumulator], registers := r.(address := a, time := 0)))
  {
    ResolvedStep(d);
    var e := Resolved(d);
    MacroStepUnfold(d, fuel);
    OperandSteps(e);
    MacroStepUnfold(e, fuel - 1);
  }

  /** BUN continues at the effective address in T3-T4. */
  lemma BranchUnconditionally(d: Machine, fuel: nat)
    requires Valid(d) && d.registers.time == 3 && Opcode(d.registers.instruction) == BUN
    requires fuel >= 2
    ensures var a := Effective(d); var r := d.registers;
            MacroStep(d, fuel) == Some(d.(registers := r.(address := a, program := a, time := 0)))
  {
    ResolvedStep(d);
    var e := Resolved(d);
    MacroStepUnfold(d, fuel);
    OperandSteps(e);
    MacroStepUnfold(e, fuel - 1);
  }

  /** BSA stores the return address at the effective address and
      continues just after it, in T3-T5. */
  lemma BranchAndSave(d: Machine, fuel: nat)
    requires Valid(d) && d.registers.time == 3 && Opcode(d.registers.instruction) == BSA
    requires fuel >= 3
    ensures var a := Effective(d); var r := d.registers; var next := (a + 1) % 0x1000;
            MacroStep(d, fuel) == Some(d.(memory := d.memory[a := r.program], registers := r.(address := next, program := next, time := 0)))
  {
    ResolvedStep(d);
    var e := Resolved(d);
    MacroStepUnfold(d, fuel);
    OperandSteps(e);
    var f := MicroStep(e);
    MacroStepUnfold(e, fuel - 1);
    OperandSteps(f);
    MacroStepUnfold(f, fuel - 2);
  }

  /** ISZ increments the word at the effective address in T3-T6, modulo
      2^16. DIVERGENCE: DR is left 0 and the next instruction is never
      skipped, whatever the new word. */
  lemma IncrementAndSkip(d: Machine, fuel: nat)
    requires Valid(d) && d.registers.time == 3 && Opcode(d.registers.instruction) == ISZ
    requires fuel >= 4
    ensures var a := Effective(d); var r := d.registers;
            MacroStep(d, fuel) == Some(d.(memory := d.memory[a := (d.memory[a] + 1) % WORD], registers := r.(address := a, data := 0, time := 0)))
  {
    ResolvedStep(d);
    var e := Resolved(d);
    MacroStepUnfold(d, fuel);
    OperandSteps(e);
    var f := MicroStep(e);
    MacroStepUnfold(e, fuel - 1);
    OperandSteps(f);
    var g := MicroStep(f);
    MacroStepUnfold(f, fuel - 2);
    IncrementStore(g);
    MacroStepUnfold(g, fuel - 3);
  }

  /** LDA brings the word at the effective address into AC by the end of
      T5, through a pointer in memory when I is set; T then stays 5. */
  lemma LoadAccumulatorSteps(d: Machine)
    requires Valid(d) && d.registers.time == 3 && Opcode(d.registers.instruction) == LDA
    ensures var a := Effective(d); var r := d.registers;
            MicroStep(MicroStep(MicroStep(d)))
            == d.(registers := r.(address := a, data := d.memory[a], accumulator := d.memory[a], time := 5))
  {
    ResolvedStep(d);
    var e := Resolved(d);
    OperandSteps(e);
    OperandSteps(MicroStep(e));
  }

  /** AND, ADD and LDA read their operand in T4 and then stay at T5: the
      macro-step never ends, whatever the fuel. */
  lemma OperandInstructionsNeverFinish(d: Machine, fuel: nat)
    requires Valid(d) && d.registers.time == 3 && Opcode(d.registers.instruction) in {AND, ADD, LDA}
    ensures MacroStep(d, fuel) == None
  {
    if fuel > 0 {
      ResolvedStep(d);
      var e := Resolved(d);
      MacroStepUnfold(d, fuel);
      if fuel > 1 {
        OperandSteps(e);
        MacroStepUnfold(e, fuel - 1);
        StuckAtT5(MicroStep(e), fuel - 2);
      }
    }
  }

  /** A register-reference or input-output word finishes in T3. */
  lemma RegisterInstructionFinishes(d: Machine, fuel: nat)
    requires Valid(d) && d.registers.time == 3 && Field(d.registers.instruction) == 7
    requires fuel >= 1
    ensures MacroStep(d, fuel) == Some(MicroStep(d))
  {
    MacroStepUnfold(d, fuel);
  }

  /** Bits 12-14 hold `111` or one of the seven memory-reference opcodes. */
  lemma OpcodeCases(w: int)
    ensures Field(w) == 7 || Opcode(w) in {AND, ADD, LDA, STA, BUN, BSA, ISZ}
  {
    var k := Field(w);
    assert 0 <= k < 8;
    assert k == 0 || k == 1 || k == 2 || k == 3 || k == 4 || k == 5 || k == 6 || k == 7;
  }

  /** STA, BUN, BSA and ISZ all finish within four steps of T3. */
  lemma MemoryInstructionFinishes(d: Machine, fuel: nat)
    requires Valid(d) && d.registers.time == 3 && Opcode(d.registers.instruction) in {STA, BUN, BSA, ISZ}
    requires fuel >= 4
    ensures MacroStep(d, fuel).Some?
  {
    var op := Opcode(d.registers.instruction);
    if op == STA {
      StoreAccumulator(d, fuel);
    } else if op == BUN {
      BranchUnconditionally(d, fuel);
    } else if op == BSA {
      BranchAndSave(d, fuel);
    } else {
      IncrementAndSkip(d, fuel);
    }
  }

  /** One `microStep` from T0 followed by `macroStep` fetches and decodes
      the word at PC and then runs it from T3. */
  lemma FetchThenExecute(m: Machine, fuel: nat)
    requires Valid(m) && m.registers.time == 0 && !m.flags.interrupt
    requires fuel >= 2
    ensures MacroStep(MicroStep(m), fuel) == MacroStep(Decoded(m), fuel - 2)
  {
    FetchPath(m);
    MacroStepUnfold(MicroStep(m), fuel);
    MacroStepUnfold(MicroStep(MicroStep(m)), fuel - 1);
  }

  /** With enough fuel a whole instruction finishes exactly when it is not
      AND, ADD or LDA. */
  lemma WholeInstruction(m: Machine, fuel: nat)
    requires Valid(m) && m.registers.time == 0 && !m.flags.interrupt
    requires fuel >= 6
    ensures var w := m.memory[m.registers.program];
            MacroStep(MicroStep(m), fuel).None? <==> Field(w) != 7 && Opcode(w) in {AND, ADD, LDA}
  {
    FetchThenExecute(m, fuel);
    var d := Decoded(m);
    var w := d.registers.instruction;
    if Field(w) == 7 {
      RegisterInstructionFinishes(d, fuel - 2);
    } else if Opcode(w) in {AND, ADD, LDA} {
      OperandInstructionsNeverFinish(d, fuel - 2);
    } else {
      OpcodeCases(w);
      MemoryInstructionFinishes(d, fuel - 2);
    }
  }
}
