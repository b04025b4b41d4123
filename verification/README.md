# Mano basic computer: assembler front end and micro-cycle simulator

This project is a Dafny model of the core of a TypeScript toolkit for
M. Morris Mano's basic computer (the 16-bit accumulator machine of
*Computer System Architecture*, chapter 5). The model covers these parts:

- **the two line parsers of the assembler.** The older one is
  `src/assembler/Parser.ts` and the newer one is `src/assembler/parse.ts`.
  Each turns source text into a list of statements or into the error of
  the first bad line. They are modelled as `LegacyParser` and `LineParser`.
  Both are built on shared text handling (`Text`, `Numerals`, `Lexicon`)
  and on one line-by-line loop (`LineFold`). `ParserComparison` states
  where the two agree and where they differ.
- **pass 1 of the assembler.** This is `createAddressTable` in
  `src/assembler/translate.ts`, modelled as `AddressTable`. It binds the
  label of every `DEC`/`HEX` word to its address and reports a label that
  is bound twice.
- **the simulator.** This is `src/simulator/Simulator.ts` with its
  register file and flags (`Simulator`, `Registers`, `MachineFlags`,
  `Opcodes`). It covers the machine state, the timing steps T0-T6,
  `microStep`, `macroStep` and `load`. `InstructionCycle` states what a
  whole fetch-decode-execute cycle does.
- **the assembler's older register file.** This is
  `src/assembler/RegisterFile.ts`, modelled as `LegacyRegisters`. It masks
  fewer registers than the simulator's register file.

Every operation is a pure function over immutable values. A simulator
`Machine` holds three things: a 4096-word memory, the register file
(including the sequence counter T) and the seven flags. A step maps one
`Machine` to the next.

The model follows the code as written. Where the code departs from Mano's
register-transfer table, the model reproduces the departure, marks it
`DIVERGENCE` in the Dafny, and proves what it leads to:

- **AND, ADD and LDA never finish.** At T5 these return without resetting
  T (`src/simulator/Simulator.ts:299-312`). T stays 5, so `macroStep`
  never returns for them (`StuckAtT5`, `WholeInstruction`).
- **ISZ never skips, and it zeroes DR.** The skip test at T6 is written
  `if (this.registers.data = 0)`. That is an assignment, so DR becomes 0
  and the next instruction is never skipped (`IncrementAndSkip`).
- **CIR and CIL leave E alone.** They rotate AC within its 16 bits; E is
  neither shifted in nor out.
- **CME is never recognised.** Its `case` label is spelled with Cyrillic
  letters (`src/simulator/Simulator.ts:169`), so CME is handled like any
  unrecognised code: only T changes (`ComplementCarryIgnored`).
- **`load` ignores the origin.** It passes the first segment's origin to
  a register-file constructor that takes no argument. PC is therefore
  always 2, and the machine is left stopped.
- **The older parser's origin and END differ.** It reads `ORG` in decimal
  and drops the label of `ORG` and `END`. The newer parser reads `ORG` in
  hexadecimal and keeps every label.
- **The older parser checks in a different order.** It tests the
  indirection symbol before the operand count (`CheckOrderCauses`).
- **Surplus directive operands get the wrong cause.** Both parsers report
  them as `TooManyMRIOperands`, not `TooManyDirectiveOperands`.

On these points the model follows the code as written:

- the ISZ skip;
- PC after `load`;
- CME;
- the cause for surplus directive operands;
- the older parser's decimal `ORG`.

## Model

| member | source | states |
|---|---|---|
| Text.ToUpper | src/assembler/Parser.ts:84 | upper-casing keeps the length, moves exactly the lower-case letters up by 32, leaves no lower-case letter, and is the identity exactly on text without lower-case letters |
| Text.Find | src/assembler/Parser.ts:97 | `indexOf(",")` is -1 exactly when there is no comma, and otherwise the position of the first one |
| Text.StripComments | src/assembler/Parser.ts:81 | removing comments leaves no slash, keeps every line feed, and changes nothing in slash-free text |
| Text.StripCommentsAcrossLineFeed | src/assembler/Parser.ts:4 | a comment (`/.*`) never reaches past the line feed that ends its line |
| Text.StripCommentsCutsLine | src/assembler/Parser.ts:81 | on one line, comment removal cuts the line just before its first slash |
| Text.StripCommentsPerLine | src/assembler/Parser.ts:81-86 | stripping comments from the whole text and then splitting gives the lines each stripped on its own |
| Text.SplitLines | src/assembler/Parser.ts:86 | `split('\n')` gives one more piece than there are line feeds, no piece contains a line feed, and joining the pieces gives the text back |
| Text.SplitJoinLines | src/assembler/Parser.ts:86 | splitting undoes joining for lines without line feeds |
| Text.SourceLinesAreStrippedLines | src/assembler/Parser.ts:84-86 | line i that a parser sees is line i of the upper-cased input with its comment removed |
| Text.Trim | src/assembler/Parser.ts:102 | `trim` drops exactly the leading and trailing whitespace and keeps a word unchanged |
| Text.Tokens | src/assembler/Parser.ts:106 | `match(/\S+/g)` gives non-empty runs without whitespace, and none exactly when the text is blank |
| Text.TokensAreMaximalRuns | src/assembler/Parser.ts:106 | `match(/\S+/g)` returns the maximal non-blank runs in order: the text is its gaps and its tokens interleaved, every gap is blank, and every gap between two tokens is non-empty |
| Text.TokensOfUnwords | src/assembler/Parser.ts:106 | tokenizing words joined by single spaces gives the words back |
| Numerals.ShowDecimal | src/assembler/Parser.ts:9 | every integer has a spelling that the decimal pattern accepts and `parseInt(s, 10)` reads back exactly |
| Numerals.ShowHexadecimal | src/assembler/Parser.ts:8 | every natural number has a spelling that the hexadecimal pattern accepts and `parseInt(s, 16)` reads back exactly |
| Lexicon.InstructionClasses | src/assembler/Parser.ts:67-71 | no mnemonic is in two of the sets MRI, RRI, IO and DIR |
| Lexicon.PlainWordsTokenize | src/assembler/Parser.ts:106 | plain words joined by spaces tokenize back to themselves, with or without a leading space, and form a non-blank line without a comma |
| Lexicon.PlainSourceLines | src/assembler/Parser.ts:84-86 | lines made of plain words reach the parser exactly as written: upper-casing, comment removal and splitting change nothing |
| Lexicon.SplitLabel | src/assembler/Parser.ts:97-102 | a line has a label part exactly when it has a comma; without one the whole line is content; with one, the content is what follows a comma that no earlier comma precedes, and the label part is the trimmed text before it |
| Lexicon.SplitAtFirstComma | src/assembler/Parser.ts:97-102 | for any text without a comma, any comma and any rest (later commas included), the label part is the trimmed text and the content is the rest |
| Lexicon.SplitLabelled | src/assembler/Parser.ts:99-102 | a label followed by `, ` is cut off whole |
| LineFold.FirstFailure | src/assembler/Parser.ts:89-188 | the index of the first failing line, or -1 exactly when no line fails |
| LineFold.Collect | src/assembler/Parser.ts:89-190 | the loop only appends to the statements already pushed, at most one per line, and an error it returns is the error of one of the lines |
| LineFold.CollectChoosesFirstFailure | src/assembler/Parser.ts:89-190 | the loop returns the first failing line's error, or every emitted statement in order when no line fails |
| LineFold.CollectFailsAtFirst | src/assembler/Parser.ts:89-190 | the loop fails exactly when some line fails, and it returns the error of the first one |
| LineFold.CollectSucceeds | src/assembler/Parser.ts:89-190 | a successful loop returns one statement for every line that is not skipped |
| LineFold.CollectAllEmitted | src/assembler/Parser.ts:89-190 | when every line emits, the loop returns all the statements in order |
| LineFold.EmittedInLineOrder | src/assembler/parse.ts:94-95 | emitted statements keep the order of their lines |
| LegacyParser.Classify | src/assembler/Parser.ts:111-187 | classifying an operation never skips, reports the line it was given, and emits only well-formed statements |
| LegacyParser.ParseContent | src/assembler/Parser.ts:106-111 | text after the label that has no token fails with `EmptyContent` |
| LegacyParser.ParseLine | src/assembler/Parser.ts:89-104 | a line is skipped exactly when it is blank; a failure names the line; an emitted statement is well formed |
| LegacyParser.LabelRules | src/assembler/Parser.ts:96-111 | text before the first comma must trim to a label (`InvalidLabel`), and something must follow the comma (`EmptyContent`); otherwise the label and the tokens after the comma are classified |
| LegacyParser.UnlabelledLine | src/assembler/Parser.ts:106-111 | a line without a comma is classified whole, with no label |
| LegacyParser.MemoryReferenceRules | src/assembler/Parser.ts:114-127 | the checks run in this order: `NoAddress`, `InvalidAddress`, `InvalidIndirectionSymbol`, `TooManyMRIOperands`; a line is accepted exactly with one label-shaped address and an optional `I`; `indirect` is set exactly when `I` is given |
| LegacyParser.NonMemoryReferenceRules | src/assembler/Parser.ts:128-132 | register-reference and input-output mnemonics take no operand (`TooManyNonMRIOperands`) and keep the label |
| LegacyParser.DirectiveRules | src/assembler/Parser.ts:133-183 | directives take at most one operand; ORG and DEC read signed decimal and HEX reads unsigned hexadecimal, each with its own error; END takes none; the other directives need a numeral; ORG and END drop the label |
| LegacyParser.UnrecognizedRule | src/assembler/Parser.ts:185-187 | any other operation fails with `UnrecognizedOperation` |
| LegacyParser.Parse | src/assembler/Parser.ts:83-191 | `parse` returns the error of the first failing line, or, when no line fails, the statements of the emitting lines in line order (its meaning for the input text is in ParseFailsAtFirstBadLine, ParseSucceeds and ParseUnparse) |
| LegacyParser.ParseFailsAtFirstBadLine | src/assembler/Parser.ts:83-191 | the parse fails exactly when some line fails; it then returns the first failing line's error, numbered from 1 |
| LegacyParser.ParseSucceeds | src/assembler/Parser.ts:83-191 | a successful parse returns one well-formed statement for every non-blank line, in line order |
| LegacyParser.ClassifyWords | src/assembler/Parser.ts:111-183 | classifying a statement's own words gives the statement back |
| LegacyParser.ParseRender | src/assembler/Parser.ts:89-187 | a statement rendered as a line parses back to itself, on any line number |
| LegacyParser.ParseEmpty | src/assembler/Parser.ts:83-91 | an empty source parses to no statements |
| LegacyParser.ParseUnparse | src/assembler/Parser.ts:83-191 | every statement list the parser can produce is written out by `Unparse` in a form that parses back to exactly that list |
| LineParser.Classify | src/assembler/parse.ts:102-151 | classifying an operation never skips; it keeps the line number and the label, and emits only well-formed statements |
| LineParser.ParseContent | src/assembler/parse.ts:97-102 | text after the label that has no token fails with `EmptyContent` and no offending value |
| LineParser.ParseLine | src/assembler/parse.ts:76-100 | a line is skipped exactly when it is blank; a failure or a statement carries the line number |
| LineParser.LabelRules | src/assembler/parse.ts:83-100 | text before the first comma must trim to a label (`InvalidLabel`, with the text as the offending value), and something must follow it; otherwise the label and the tokens after the comma are classified |
| LineParser.UnlabelledLine | src/assembler/parse.ts:97-102 | a line without a comma is classified whole, with no label |
| LineParser.MemoryReferenceRules | src/assembler/parse.ts:106-117 | the checks run in this order: `NoAddress`, `InvalidAddress`, surplus operands (`TooManyMRIOperands`, with the surplus), `InvalidIndirectionSymbol`; a line is accepted exactly with one address and an optional `I` |
| LineParser.NonMemoryReferenceRules | src/assembler/parse.ts:118-120 | register-reference and input-output mnemonics take no operand and report all of them as surplus |
| LineParser.DirectiveRules | src/assembler/parse.ts:121-148 | directives take at most one operand, with the surplus reported; ORG and HEX read hexadecimal and DEC reads decimal; END takes none and keeps its label |
| LineParser.UnrecognizedRule | src/assembler/parse.ts:149-151 | any other operation fails with `UnrecognizedOperation` and names the operation |
| LineParser.Parse | src/assembler/parse.ts:70-155 | `parse` returns the error of the first failing line, or, when no line fails, the statements of the emitting lines in line order (its meaning for the input text is in ParseFailsAtFirstBadLine, ParseSucceeds and ParseUnparse) |
| LineParser.ParseFailsAtFirstBadLine | src/assembler/parse.ts:70-155 | the parse fails exactly when some line fails; it then returns the first failing line's error, which carries that line's number |
| LineParser.ParseSucceeds | src/assembler/parse.ts:70-155 | a successful parse returns one well-formed statement for every non-blank line; line numbers stay within the source and strictly increase |
| LineParser.ClassifyWords | src/assembler/parse.ts:102-148 | classifying a statement's own words gives the statement back |
| LineParser.ParseRender | src/assembler/parse.ts:76-151 | a statement rendered as a line parses back to itself |
| LineParser.ParseEmpty | src/assembler/parse.ts:70-78 | an empty source parses to no statements |
| LineParser.ParseUnparse | src/assembler/parse.ts:70-155 | every well-formed statement list numbered 1, 2, ... is written out by `Unparse` in a form that parses back to exactly that list |
| ParserComparison.InstructionsCorrespond | src/assembler/parse.ts:106-120 | on instruction lines the two parsers accept the same statements and reject with the same cause, except exactly where the order of the memory-reference checks matters |
| ParserComparison.CheckOrderCauses | src/assembler/Parser.ts:122-125 | on an address, a bad indirection symbol and a surplus operand, the older parser reports the indirection symbol and the newer one the surplus |
| ParserComparison.CheckOrderExample | src/assembler/parse.ts:113-115 | `LDA A J K` fails differently in the two parsers |
| ParserComparison.WordsCorrespond | src/assembler/parse.ts:134-141 | `HEX` and `DEC` lines correspond in the two parsers, whatever their operands |
| ParserComparison.OriginRadix | src/assembler/Parser.ts:143-151 | `ORG` reads decimal in the older parser and hexadecimal in the newer one |
| ParserComparison.OriginRadixExample | src/assembler/parse.ts:130-133 | `ORG 10` is address 10 to the older parser and 16 to the newer one |
| ParserComparison.EndLabel | src/assembler/Parser.ts:175-182 | a labelled `END` keeps its label only in the newer parser |
| AddressTable.EndIndex | src/assembler/translate.ts:33-35 | the position of the first END, or the length when there is none |
| AddressTable.LastOrigin | src/assembler/translate.ts:37-40 | the position of the last ORG before a statement, or -1 |
| AddressTable.Walk | src/assembler/translate.ts:27-54 | the loop only adds bindings, keeping every one it started with; each new key is the label of a DEC/HEX word it passed; it fails only with `LabelAlreadyDefined` on such a label |
| AddressTable.CreateAddressTable | src/assembler/translate.ts:23-55 | every label in the table is bound by a DEC/HEX word, and the only error is `LabelAlreadyDefined` (the complete meaning is CreateAddressTableMeaning) |
| AddressTable.AddressStep | src/assembler/translate.ts:27-52 | the address counter moves to the ORG operand at an ORG and otherwise goes up by one |
| AddressTable.DescribesStep | src/assembler/translate.ts:42-49 | one step keeps the table binding every label seen so far to its address |
| AddressTable.WalkAtClash | src/assembler/translate.ts:43-46 | at a label that is already bound, the walk stops with `LabelAlreadyDefined` and the label |
| AddressTable.WalkMeaning | src/assembler/translate.ts:27-54 | from any point before END, the walk fails exactly at the first redefinition; otherwise it returns a table whose keys are the labels before END, each bound to its address |
| AddressTable.CreateAddressTableMeaning | src/assembler/translate.ts:23-55 | pass 1 succeeds exactly when the labels bound before the first END are distinct; the table then maps each such label to its address (the last ORG operand plus the words since, or 2 plus its position); otherwise it reports the first label bound twice |
| AddressTable.EndStops | src/assembler/translate.ts:33-35 | nothing after the first END reaches the table |
| AddressTable.OriginUnchecked | src/assembler/translate.ts:37-40 | ORG may move the counter back onto addresses already used |
| AddressTable.RedefinitionReported | src/assembler/translate.ts:42-46 | for every statement list, a label bound a second time before the first END makes pass 1 fail with `LabelAlreadyDefined`, whatever ORGs lie between; the label reported is bound twice no later than that one |
| AddressTable.RedefinitionExample | src/assembler/translate.ts:42-46 | example: in `A DEC 1`, `ORG 100`, `A DEC 2` the second `A` is reported |
| AddressTable.InstructionsAdvance | src/assembler/translate.ts:28-31 | for every statement list, an instruction before the first END moves the address up by one and binds no label; its own label reaches the table only if a DEC/HEX word before END binds it |
| AddressTable.InstructionsExample | src/assembler/translate.ts:28-31 | example: after `Y, LDA X` and `HLT`, the word `X` sits at address 4 and `Y` is not bound |
| Opcodes.CodeTables | src/assembler/Parser.ts:67-71 | every mnemonic the assembler accepts as an instruction has a code, and no other does |
| Opcodes.MemoryOpcodeBits | src/simulator/Simulator.ts:252-285 | memory-reference opcodes are bits 12-14 values other than `111` |
| Opcodes.RegisterCodeBits | src/simulator/Simulator.ts:145-156 | register-reference codes have bits 12-14 set and bit 15 clear |
| Opcodes.IoCodeBits | src/simulator/Simulator.ts:145-156 | input-output codes have bits 12-14 and bit 15 set |
| Opcodes.RegisterCodesDistinct | src/simulator/Simulator.ts:156-240 | no two register-reference mnemonics share a code |
| Registers.Default | src/simulator/RegisterFile.ts:1-14 | a new register file is in range, with PC 2, T 0 and every other register 0 |
| Registers.Set | src/simulator/RegisterFile.ts:16-54 | a setter stores a value of the register's width that is congruent to the argument; no other register changes, nor does T |
| Registers.SetInRange | src/simulator/RegisterFile.ts:16-54 | a value that already has the register's width is stored unchanged |
| Registers.SetTwice | src/simulator/RegisterFile.ts:16-54 | writing a register twice keeps only the second write |
| Registers.SetSame | src/simulator/RegisterFile.ts:16-54 | writing back what a register holds changes nothing |
| Registers.SetCommutes | src/simulator/RegisterFile.ts:16-54 | writes to two different registers commute |
| MachineFlags.Default | src/simulator/Flags.ts:1-9 | new flags: stopped, output ready, everything else clear |
| LegacyRegisters.New | src/assembler/RegisterFile.ts:11-20 | the constructor stores PC as given and every other register as 0 |
| LegacyRegisters.Set | src/assembler/RegisterFile.ts:22-60 | AR, PC, INPR and OUTR are masked to their widths; DR, AC, IR and TR store the argument as given; no other register changes |
| LegacyRegisters.NewAgreesWithDefault | src/assembler/RegisterFile.ts:11-20 | constructed with PC 2, the older register file holds what the simulator's new register file holds |
| LegacyRegisters.NewKeepsWideProgram | src/assembler/RegisterFile.ts:11-12 | the constructor keeps a PC wider than 12 bits |
| LegacyRegisters.SetAgrees | src/assembler/RegisterFile.ts:22-60 | on masked registers, and on any value that already has the register's width, the two register files store the same value |
| LegacyRegisters.SetDisagrees | src/assembler/RegisterFile.ts:32-35 | the two register files differ exactly on an unmasked register written with a value outside 16 bits |
| LegacyRegisters.AccumulatorOverflowKept | src/assembler/RegisterFile.ts:32-35 | AC written with 0x10000 keeps it in the older file and wraps to 0 in the simulator's |
| LegacyRegisters.SetTwice | src/assembler/RegisterFile.ts:22-60 | writing a register twice keeps only the second write |
| LegacyRegisters.SetCommutes | src/assembler/RegisterFile.ts:22-60 | writes to two different registers commute |
| Simulator.Init | src/simulator/Simulator.ts:36-41 | a new machine is valid, with zeroed memory and the default registers and flags |
| Simulator.Store | src/simulator/Simulator.ts:269 | a memory write keeps the value modulo 2^16 and changes no other word |
| Simulator.T0 | src/simulator/Simulator.ts:96-107 | T0 keeps the machine valid and moves T to 1 |
| Simulator.T1 | src/simulator/Simulator.ts:109-122 | T1 moves T to 2 and keeps the flags and AR; without an interrupt it loads IR with the word at AR and advances PC modulo 4096, memory unchanged; with one it stores TR at AR and sets PC to 0 |
| Simulator.T2 | src/simulator/Simulator.ts:124-142 | T2 keeps the machine valid and moves T to 0 (interrupt) or 3 |
| Simulator.T3 | src/simulator/Simulator.ts:144-249 | T3 keeps the machine valid and moves T to 4 (memory reference) or 0 |
| Simulator.T4 | src/simulator/Simulator.ts:251-293 | T4 keeps the machine valid and moves T to 0 or 5 |
| Simulator.T5 | src/simulator/Simulator.ts:295-329 | T5 keeps the machine valid; T becomes 0 or 6, or stays 5 |
| Simulator.T6 | src/simulator/Simulator.ts:331-336 | T6 stores DR at AR, then DR becomes 0 and T 0; no other register and no flag changes, so PC never advances |
| Simulator.MicroStep | src/simulator/Simulator.ts:82-86 | a micro-step keeps the machine valid |
| Simulator.MacroStep | src/simulator/Simulator.ts:92-94 | a finished macro-step leaves a valid machine at T0 |
| Simulator.Load | src/simulator/Simulator.ts:69-80 | loading keeps the machine valid, and a non-empty program leaves PC 2, T 0 and the machine stopped, whatever its origin (the memory it loads is stated by LoadMeaning) |
| Simulator.Copy | src/simulator/Simulator.ts:78 | copying a segment stores each of its words, modulo 2^16, at its address and changes no other word |
| Simulator.AccumulatorStep | src/simulator/Simulator.ts:157-188 | the accumulator codes change nothing but AC and E, and only CLE changes E; memory and T are untouched |
| Simulator.ControlStep | src/simulator/Simulator.ts:189-244 | the skip, halt and input-output codes change no memory, no register but PC, AC and OUTR, and never E, R or I; PC changes only by advancing one, modulo 4096 |
| Simulator.RegisterReference | src/simulator/Simulator.ts:155-248 | a word with bits 12-14 set is executed in T3 and returns T to 0, leaving memory, AR and IR as they were |
| Simulator.ClearAndIncrementCodes | src/simulator/Simulator.ts:157-188 | CLA clears AC, CLE clears E, INC adds one to AC modulo 2^16; T returns to 0 |
| Simulator.ComplementCode | src/simulator/Simulator.ts:165-168 | CMA leaves the ones' complement of AC |
| Simulator.RotateRightCode | src/simulator/Simulator.ts:173-178 | CIR rotates AC right within 16 bits and leaves E alone |
| Simulator.RotateLeftCode | src/simulator/Simulator.ts:179-184 | CIL rotates AC left within 16 bits and leaves E alone |
| Simulator.RotationsInverse | src/simulator/Simulator.ts:173-184 | CIR and CIL undo each other |
| Simulator.ComplementInverse | src/simulator/Simulator.ts:165-168 | CMA undoes itself |
| Simulator.SkipCodes | src/simulator/Simulator.ts:189-232 | SPA, SNA, SZA, SZE, SKI and SKO advance PC by one, modulo 4096, exactly when their condition holds |
| Simulator.ControlCodes | src/simulator/Simulator.ts:209-240 | HLT sets the stop flag; INP and OUT move a byte and clear their flag; ION and IOF set and clear IEN |
| Simulator.UnrecognizedCode | src/simulator/Simulator.ts:241-244 | any other word with bits 12-14 set changes only T |
| Simulator.ComplementCarryIgnored | src/simulator/Simulator.ts:169-172 | CME changes only T |
| Simulator.IndirectAddress | src/simulator/Simulator.ts:144-154 | T3 of a memory-reference word replaces AR with the word it points to when I is set |
| Simulator.OperandSteps | src/simulator/Simulator.ts:251-329 | T4 and T5 of each memory-reference instruction, register by register |
| Simulator.AddCarry | src/simulator/Simulator.ts:303-308 | ADD leaves the 17-bit sum of AC and DR in E:AC, and T stays 5 |
| Simulator.AndStep | src/simulator/Simulator.ts:299-302 | AND leaves AC AND DR in AC, and T stays 5 |
| Simulator.BitAnd | src/simulator/Simulator.ts:301 | AC AND DR is no larger than either operand |
| Simulator.BitAndCommutes | src/simulator/Simulator.ts:301 | AND does not depend on the order of its operands |
| Simulator.BitAndSelf | src/simulator/Simulator.ts:301 | a word ANDed with itself is unchanged |
| Simulator.IncrementStore | src/simulator/Simulator.ts:331-336 | T6 stores DR at AR, zeroes DR and never advances PC |
| Simulator.StopIgnored | src/simulator/Simulator.ts:82-86 | machines that differ only in the stop flag step to machines that differ only in it |
| Simulator.StopIgnoredByT5 | src/simulator/Simulator.ts:295-329 | T5 does not read the stop flag |
| Simulator.MacroStepIdle | src/simulator/Simulator.ts:92-94 | a macro-step started at T0 does nothing |
| Simulator.MacroStepFuel | src/simulator/Simulator.ts:92-94 | more fuel does not change a finished macro-step |
| Simulator.StuckAtT5 | src/simulator/Simulator.ts:295-312 | from T5 of AND, ADD or LDA, a macro-step never finishes |
| Simulator.LastCovering | src/simulator/Simulator.ts:77-79 | the last segment that covers an address, or -1 |
| Simulator.PlaceMeaning | src/simulator/Simulator.ts:77-79 | after the segments are copied, each word holds what the last segment covering it put there |
| Simulator.LoadEmpty | src/simulator/Simulator.ts:70-71 | loading an empty program changes nothing |
| Simulator.LoadMeaning | src/simulator/Simulator.ts:69-80 | loading resets registers and flags to their defaults (PC 2, stopped, whatever the origin); each word holds its last covering segment's word, or 0 |
| Simulator.LoadForgetsMachine | src/simulator/Simulator.ts:73-79 | a non-empty program loads the same machine whatever was there before |
| Simulator.LoadIdempotent | src/simulator/Simulator.ts:69-80 | loading the same program twice is loading it once |
| InstructionCycle.FetchPath | src/simulator/Simulator.ts:96-142 | without an interrupt, T0-T2 put the word at PC in IR, its address part in AR and its bit 15 in I, advance PC and reach T3 |
| InstructionCycle.InterruptPath | src/simulator/Simulator.ts:96-131 | with an interrupt, T0-T2 save PC at address 0, continue at address 1, clear R and IEN and return to T0 |
| InstructionCycle.StoreAccumulator | src/simulator/Simulator.ts:267-271 | STA stores AC at the effective address and finishes |
| InstructionCycle.BranchUnconditionally | src/simulator/Simulator.ts:272-276 | BUN continues at the effective address |
| InstructionCycle.BranchAndSave | src/simulator/Simulator.ts:277-316 | BSA stores the return address at the effective address and continues just after it |
| InstructionCycle.IncrementAndSkip | src/simulator/Simulator.ts:282-336 | ISZ increments the word at the effective address modulo 2^16, zeroes DR and never skips |
| InstructionCycle.LoadAccumulatorSteps | src/simulator/Simulator.ts:144-312 | LDA brings the word at the effective address into AC, through a pointer when I is set, and stays at T5 |
| InstructionCycle.OperandInstructionsNeverFinish | src/simulator/Simulator.ts:295-312 | AND, ADD and LDA never finish a macro-step, whatever the fuel |
| InstructionCycle.RegisterInstructionFinishes | src/simulator/Simulator.ts:144-249 | a register-reference or input-output word finishes in T3 |
| InstructionCycle.MemoryInstructionFinishes | src/simulator/Simulator.ts:251-336 | STA, BUN, BSA and ISZ finish within four steps of T3 |
| InstructionCycle.FetchThenExecute | src/simulator/Simulator.ts:92-142 | a micro-step from T0 followed by a macro-step fetches and decodes, then runs the word from T3 |
| InstructionCycle.WholeInstruction | src/simulator/Simulator.ts:92-94 | with enough fuel, a whole instruction finishes exactly when it is not AND, ADD or LDA |

## Left out

- Logging is left out. Every `console.log` and the logger in `src/logger/Logger.ts` only writes diagnostics.
- `execute` is left out. It is empty in the source (`src/simulator/Simulator.ts:88-90`).
- `translate` is left out. It only logs the address table (`src/assembler/translate.ts:57-61`).
- The user interface in `src/App.tsx` is left out.
- `state()` is not modelled separately. The `Machine` value is already the snapshot that `state()` copies out.
- `Simulator.MicroStep` requires T in 0..6. In the source, any other T makes `steps[time]` undefined and the call throws.
- `Simulator.Load` requires every segment to fit in memory. Otherwise `Uint16Array.set` throws a `RangeError`, and that exception is not modelled.
- `Simulator.MacroStep` takes a fuel bound and returns `None` when the fuel runs out. The source loops with no bound, so `None` stands for a loop that does not return.
- Numbers are unbounded integers. `parseInt` in the source returns a floating-point number, which is exact only below 2^53.
- Text is modelled as ASCII only. `toUpperCase` and `\s` are modelled on ASCII; their behaviour on other Unicode characters is not.
- `Simulator.BitAnd` is defined bit by bit on integers. That it equals the 16-bit bitwise `&` is not proved.
- CIR and CIL OR a single bit into a value where that bit is clear; the model writes this OR as addition.
- The opcode values are not taken from source code. `src/simulator/Simulator.ts:1` imports the opcode tables from `src/assembler/translate.ts`, whose text does not export them, so the values follow Mano's table.
- Pass 1 is modelled over the older parser's statements, because `src/assembler/translate.ts:1` imports its input type from `./Parser`.
- The error's `value` field is typed `any` in the source. In pass 1 it is modelled as the label.
