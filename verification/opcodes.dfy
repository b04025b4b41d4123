/** The instruction encoding of Mano's basic computer (Table 5-2 of
    M. Morris Mano, Computer System Architecture), which
    src/simulator/Simulator.ts:1 imports as `MRI` and `NonMRI`: a
    memory-reference opcode sits in bits 12-14 of the instruction word,
    and every register-reference or input-output code has those bits set. */
module Opcodes {
  import opened Lexicon

  // Memory-reference opcodes, compared against `IR & 0x7000`.
  const AND: int := 0x0000
  const ADD: int := 0x1000
  const LDA: int := 0x2000
  const STA: int := 0x3000
  const BUN: int := 0x4000
  const BSA: int := 0x5000
  const ISZ: int := 0x6000

  // Register-reference codes, compared against the whole instruction word.
  const CLA: int := 0x7800
  const CLE: int := 0x7400
  const CMA: int := 0x7200
  const CME: int := 0x7100
  const CIR: int := 0x7080
  const CIL: int := 0x7040
  const INC: int := 0x7020
  const SPA: int := 0x7010
  const SNA: int := 0x7008
  const SZA: int := 0x7004
  const SZE: int := 0x7002
  const HLT: int := 0x7001

  // Input-output codes, compared against the whole instruction word.
  const INP: int := 0xF800
  const OUT: int := 0xF400
  const SKI: int := 0xF200
  const SKO: int := 0xF100
  const ION: int := 0xF080
  const IOF: int := 0xF040

  /** Bits 12-14 of a word: `(word & 0x7000) == Field(word) * 0x1000` for
      any non-negative word. */
  function Field(word: int): int {
    word / 0x1000 % 8
  }

  /** The codes by mnemonic, keyed by the assembler's mnemonic sets. */
  const MemoryOpcodes: map<string, int> :=
    map["AND" := AND, "ADD" := ADD, "LDA" := LDA, "STA" := STA, "BUN" := BUN, "BSA" := BSA, "ISZ" := ISZ]

  const RegisterCodes: map<string, int> :=
    map["CLA" := CLA, "CLE" := CLE, "CMA" := CMA, "CME" := CME, "CIR" := CIR, "CIL" := CIL,
        "INC" := INC, "SPA" := SPA, "SNA" := SNA, "SZA" := SZA, "SZE" := SZE, "HLT" := HLT]

  const IoCodes: map<string, int> :=
    map["INP" := INP, "OUT" := OUT, "SKI" := SKI, "SKO" := SKO, "ION" := ION, "IOF" := IOF]

  /** Every mnemonic the assembler accepts as an instruction has a code,
      and no other does. */
  lemma CodeTables()
    ensures MemoryOpcodes.Keys == MRI
    ensures RegisterCodes.Keys == RRI
    ensures IoCodes.Keys == IO
  {
  }

  /** A memory-reference opcode is a bare bits 12-14 value other than
      `111`. */
  lemma MemoryOpcodeBits()
    ensures forall op :: op in MemoryOpcodes ==>
              var c := MemoryOpcodes[op]; 0 <= c < 0x7000 && c % 0x1000 == 0 && Field(c) != 7
  {
  }

  /** Every register-reference code has bits 12-14 equal to `111` and bit
      15 clear. */
  lemma RegisterCodeBits()
    ensures forall op :: op in RegisterCodes ==>
              var c := RegisterCodes[op]; 0x7000 <= c < 0x8000 && Field(c) == 7
  {
  }

  /** Every input-output code has bits 12-14 equal to `111` and bit 15 set. */
  lemma IoCodeBits()
    ensures forall op :: op in IoCodes ==>
              var c := IoCodes[op]; 0xF000 <= c < 0x10000 && Field(c) == 7
  {
  }

  /** No two mnemonics share a code. */
  lemma MemoryOpcodesDistinct()
    ensures forall a, b :: a in MemoryOpcodes && b in MemoryOpcodes && a != b ==> MemoryOpcodes[a] != MemoryOpcodes[b]
  {
  }

  lemma RegisterCodesDistinct()
    ensures forall a, b :: a in RegisterCodes && b in RegisterCodes && a != b ==> RegisterCodes[a] != RegisterCodes[b]
  {
  }

  lemma IoCodesDistinct()
    ensures forall a, b :: a in IoCodes && b in IoCodes && a != b ==> IoCodes[a] != IoCodes[b]
  {
  }
}
