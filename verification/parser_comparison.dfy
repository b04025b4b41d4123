/** The two line parsers side by side (src/assembler/Parser.ts and
    src/assembler/parse.ts): on instructions and word directives they
    accept the same lines with the same meaning and reject the same lines
    for the same cause, with one exception in the order of the
    memory-reference checks; they part ways on the radix of `ORG` and on
    the label of `END`. */
module ParserComparison {
  import opened Results
  import opened Numerals
  import opened Lexicon
  import opened Errors
  import opened LineFold
  import L = LegacyParser
  import N = LineParser

  /** A statement of the newer parser in the older parser's terms: the line
      number goes, the label moves into the statement, and an origin
      forgets its label. */
  function Forget(st: N.Statement): L.Statement {
    match st.content
    case MemoryReference(instruction, address, indirect) => L.MemoryReference(instruction, address, indirect, st.symbol)
    case NonMemoryReference(instruction) => L.NonMemoryReference(instruction, st.symbol)
    case End => L.End
    case Origin(hexadecimal) => L.Origin(hexadecimal)
    case Hex(numeral) => L.Word(L.HEX, numeral, st.symbol)
    case Dec(numeral) => L.Word(L.DEC, numeral, st.symbol)
  }

  /** Both parsers reject the line for the same cause, or both accept it
      with the same meaning. */
  predicate Corresponds(o: L.Outcome, n: N.Outcome) {
    || (o.Fail? && n.Fail? && o.error.cause == n.error.cause)
    || (o.Emit? && n.Emit? && Forget(n.statement) == o.statement)
  }

  /** The lines on which the memory-reference checks disagree: an address,
      a bad indirection symbol and a surplus operand after it. The older
      parser tests the indirection symbol first, the newer one the number
      of operands. */
  predicate CheckOrderMatters(op: string, operands: seq<string>) {
    op in MRI && |operands| > 2 && IsLabel(operands[0]) && !IsIndirectionSymbol(operands[1])
  }

  /** On every instruction line the parsers correspond, except on the
      lines where the order of the checks matters. */
  lemma InstructionsCorrespond(symbol: Option<string>, op: string, operands: seq<string>, line: nat)
    requires symbol.Some? ==> IsLabel(symbol.value)
    requires op in MRI || op in RRI || op in IO
    ensures Corresponds(L.Classify(symbol, op, operands, line), N.Classify(symbol, op, operands, line))
            <==> !CheckOrderMatters(op, operands)
  {
    assert op in MRI ==> op !in RRI && op !in IO;
  }

  /** Where the order matters, the older parser blames the indirection
      symbol and the newer one the surplus operands. */
  lemma CheckOrderCauses(symbol: Option<string>, op: string, operands: seq<string>, line: nat)
    requires symbol.Some? ==> IsLabel(symbol.value)
    requires CheckOrderMatters(op, operands)
    ensures L.Classify(symbol, op, operands, line) == Fail(L.Error(line, InvalidIndirectionSymbol))
    ensures N.Classify(symbol, op, operands, line) == Fail(N.Error(N.Surplus(operands[2..]), line, TooManyMRIOperands))
  {
  }

  /** `LDA A J K`: the concrete line on which the causes differ. */
  lemma CheckOrderExample()
    ensures L.Classify(None, "LDA", ["A", "J", "K"], 1) == Fail(L.Error(1, InvalidIndirectionSymbol))
    ensures N.Classify(None, "LDA", ["A", "J", "K"], 1) == Fail(N.Error(N.Surplus(["K"]), 1, TooManyMRIOperands))
  {
    assert IsLabel("A");
    CheckOrderCauses(None, "LDA", ["A", "J", "K"], 1);
  }

  /** `HEX` and `DEC` lines correspond whatever their operands. */
  lemma WordsCorrespond(symbol: Option<string>, op: string, operands: seq<string>, line: nat)
    requires symbol.Some? ==> IsLabel(symbol.value)
    requires op == "HEX" || op == "DEC"
    ensures Corresponds(L.Classify(symbol, op, operands, line), N.Classify(symbol, op, operands, line))
  {
  }

  /** `ORG` reads its operand in decimal in the older parser and in
      hexadecimal in the newer one; a numeral of decimal digits is
      accepted by both, with different values. */
  lemma OriginRadix(symbol: Option<string>, numeral: string, line: nat)
    requires symbol.Some? ==> IsLabel(symbol.value)
    requires IsDecimal(numeral) && IsHexadecimal(numeral)
    ensures L.Classify(symbol, "ORG", [numeral], line) == Emit(L.Origin(ParseDecimal(numeral)))
    ensures N.Classify(symbol, "ORG", [numeral], line) == Emit(N.Statement(line, symbol, N.Origin(ParseHexadecimal(numeral))))
  {
  }

  /** `ORG 10` is address 10 to the older parser and 16 to the newer. */
  lemma OriginRadixExample()
    ensures L.Classify(None, "ORG", ["10"], 1) == Emit(L.Origin(10))
    ensures N.Classify(None, "ORG", ["10"], 1) == Emit(N.Statement(1, None, N.Origin(16)))
  {
    assert IsDecimal("10") && IsHexadecimal("10");
    assert "10"[..1] == "1" && "1"[..0] == "";
    assert Value("1", 10) == 1 && Value("1", 16) == 1;
    assert ParseDecimal("10") == 10 && ParseHexadecimal("10") == 16;
    OriginRadix(None, "10", 1);
  }

  /** A labelled `END` keeps its label only in the newer parser. */
  lemma EndLabel(name: string, line: nat)
    requires IsLabel(name)
    ensures L.Classify(Some(name), "END", [], line) == Emit(L.End)
    ensures N.Classify(Some(name), "END", [], line) == Emit(N.Statement(line, Some(name), N.End))
  {
  }
}
