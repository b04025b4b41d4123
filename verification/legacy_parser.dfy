/** The first line parser of the assembler (src/assembler/Parser.ts):
    one statement per non-blank line, errors carrying only the line number
    and the cause, numbers already read. */
module LegacyParser {
  import opened Results
  import opened Text
  import opened Numerals
  import opened Lexicon
  import opened Errors
  import opened LineFold

  /** A rejected line: its number, counting from 1, and why. */
  datatype Error = Error(at: nat, cause: Cause)

  datatype WordDirective = DEC | HEX

  datatype Statement =
    | MemoryReference(op: string, address: string, indirect: bool, symbol: Option<string>)
    | NonMemoryReference(op: string, symbol: Option<string>)
    | Origin(numeral: int)
    | End
    | Word(directive: WordDirective, numeral: int, symbol: Option<string>)

  type Outcome = LineOutcome<Statement, Error>

  /** The operation and its operands, once the symbol is split off
      (src/assembler/Parser.ts:111-187). The memory-reference checks run
      in the order address missing, address malformed, indirection symbol
      wrong, too many operands; an origin is decimal and drops the symbol. */
  function Classify(symbol: Option<string>, op: string, operands: seq<string>, at: nat): (o: Outcome)
    requires symbol.Some? ==> IsLabel(symbol.value)
    ensures !o.Skip?
    ensures o.Fail? ==> o.error.at == at
    ensures o.Emit? ==> WellFormed(o.statement)
  {
    if op in MRI then
      if |operands| == 0 then Fail(Error(at, NoAddress))
      else if !IsLabel(operands[0]) then Fail(Error(at, InvalidAddress))
      else if |operands| > 1 && !IsIndirectionSymbol(operands[1]) then Fail(Error(at, InvalidIndirectionSymbol))
      else if |operands| > 2 then Fail(Error(at, TooManyMRIOperands))
      else Emit(MemoryReference(op, operands[0], |operands| == 2, symbol))
    else if op in RRI || op in IO then
      if |operands| > 0 then Fail(Error(at, TooManyNonMRIOperands))
      else Emit(NonMemoryReference(op, symbol))
    else if op in DIR then
      // the source reports a directive's extra operands with the
      // memory-reference cause
      if |operands| > 1 then Fail(Error(at, TooManyMRIOperands))
      else if |operands| == 1 then
        var numeral := operands[0];
        if op == "ORG" then
          if !IsDecimal(numeral) then Fail(Error(at, InvalidDecimal))
          else Emit(Origin(ParseDecimal(numeral)))
        else if op == "HEX" then
          if !IsHexadecimal(numeral) then Fail(Error(at, InvalidHexadecimal))
          else Emit(Word(HEX, ParseHexadecimal(numeral), symbol))
        else if op == "DEC" then
          if !IsDecimal(numeral) then Fail(Error(at, InvalidDecimal))
          else Emit(Word(DEC, ParseDecimal(numeral), symbol))
        else Fail(Error(at, UnexpectedOperand))
      else if op != "END" then Fail(Error(at, NoNumeral))
      else Emit(End)
    else Fail(Error(at, UnrecognizedOperation))
  }

  /** The text after the symbol, if any (src/assembler/Parser.ts:106-111). */
  function ParseContent(symbol: Option<string>, content: string, at: nat): (o: Outcome)
    requires symbol.Some? ==> IsLabel(symbol.value)
    ensures !o.Skip?
    ensures o.Fail? ==> o.error.at == at
    ensures o.Emit? ==> WellFormed(o.statement)
    ensures IsBlank(content) ==> o == Fail(Error(at, EmptyContent))
  {
    var tokens := Tokens(content);
    if |tokens| == 0 then Fail(Error(at, EmptyContent))
    else Classify(symbol, tokens[0], tokens[1..], at)
  }

  /** One line, numbered `at` (src/assembler/Parser.ts:90-104): a blank
      line is skipped; trimmed text before the first comma must be a label. */
  function ParseLine(line: string, at: nat): (o: Outcome)
    ensures o.Skip? <==> IsBlank(line)
    ensures o.Fail? ==> o.error.at == at
    ensures o.Emit? ==> WellFormed(o.statement)
  {
    if IsBlank(line) then Skip
    else
      var (symbol, content) := SplitLabel(line);
      if symbol.Some? && !IsLabel(symbol.value) then Fail(Error(at, InvalidLabel))
      else ParseContent(symbol, content, at)
  }

  lemma ParseLineSplit(line: string, symbol: Option<string>, content: string, at: nat)
    requires !IsBlank(line) && SplitLabel(line) == (symbol, content)
    ensures symbol.Some? && !IsLabel(symbol.value) ==> ParseLine(line, at) == Fail(Error(at, InvalidLabel))
    ensures symbol.None? || IsLabel(symbol.value) ==> ParseLine(line, at) == ParseContent(symbol, content, at)
  {
  }

  /** The label rules of a line: trimmed text before the first comma must
      be label-shaped, and something must follow it. */
  lemma LabelRules(line: string, at: nat)
    requires !IsBlank(line)
    ensures var k := Find(line, ',');
            0 <= k && !IsLabel(Trim(line[..k])) ==> ParseLine(line, at) == Fail(Error(at, InvalidLabel))
    ensures var k := Find(line, ',');
            0 <= k && IsLabel(Trim(line[..k])) && IsBlank(line[k + 1..]) ==>
              ParseLine(line, at) == Fail(Error(at, EmptyContent))
    ensures var k := Find(line, ','); var ws := Tokens(line[k + 1..]);
            0 <= k && IsLabel(Trim(line[..k])) && !IsBlank(line[k + 1..]) ==>
              ParseLine(line, at) == Classify(Some(Trim(line[..k])), ws[0], ws[1..], at)
  {
    var k := Find(line, ',');
    if 0 <= k {
      SplitAtComma(line);
      ParseLineSplit(line, Some(Trim(line[..k])), line[k + 1..], at);
    }
  }

  /** A line without a comma goes to `Classify` whole. */
  lemma UnlabelledLine(line: string, at: nat)
    requires !IsBlank(line) && ',' !in line
    ensures ParseLine(line, at) == Classify(None, Tokens(line)[0], Tokens(line)[1..], at)
  {
  }

  /** The memory-reference checks, in the source's order: a missing
      address, a malformed address, a wrong indirection symbol, then too
      many operands. `indirect` is set exactly when a second operand is
      present, and the label is kept. */
  lemma MemoryReferenceRules(symbol: Option<string>, op: string, operands: seq<string>, at: nat)
    requires symbol.Some? ==> IsLabel(symbol.value)
    requires op in MRI
    ensures |operands| == 0 ==> Classify(symbol, op, operands, at) == Fail(Error(at, NoAddress))
    ensures |operands| > 0 && !IsLabel(operands[0]) ==>
              Classify(symbol, op, operands, at) == Fail(Error(at, InvalidAddress))
    ensures |operands| > 1 && IsLabel(operands[0]) && operands[1] != "I" ==>
              Classify(symbol, op, operands, at) == Fail(Error(at, InvalidIndirectionSymbol))
    ensures |operands| > 2 && IsLabel(operands[0]) && operands[1] == "I" ==>
              Classify(symbol, op, operands, at) == Fail(Error(at, TooManyMRIOperands))
    ensures Classify(symbol, op, operands, at).Emit? <==>
              1 <= |operands| <= 2 && IsLabel(operands[0]) && (|operands| == 2 ==> operands[1] == "I")
    ensures Classify(symbol, op, operands, at).Emit? ==>
              Classify(symbol, op, operands, at).statement == MemoryReference(op, operands[0], |operands| == 2, symbol)
  {
  }

  /** A register-reference or input-output mnemonic takes no operand and
      keeps its label. */
  lemma NonMemoryReferenceRules(symbol: Option<string>, op: string, operands: seq<string>, at: nat)
    requires symbol.Some? ==> IsLabel(symbol.value)
    requires op in RRI || op in IO
    ensures |operands| == 0 ==> Classify(symbol, op, operands, at) == Emit(NonMemoryReference(op, symbol))
    ensures |operands| > 0 ==> Classify(symbol, op, operands, at) == Fail(Error(at, TooManyNonMRIOperands))
  {
    InstructionClasses(op);
  }

  /** Directives: at most one operand; ORG and DEC read a signed decimal,
      HEX an unsigned hexadecimal; END takes none; ORG and END drop the
      label. */
  lemma DirectiveRules(symbol: Option<string>, op: string, operands: seq<string>, at: nat)
    requires symbol.Some? ==> IsLabel(symbol.value)
    requires op in DIR
    ensures |operands| > 1 ==> Classify(symbol, op, operands, at) == Fail(Error(at, TooManyMRIOperands))
    ensures |operands| == 0 ==>
              Classify(symbol, op, operands, at) == if op == "END" then Emit(End) else Fail(Error(at, NoNumeral))
    ensures |operands| == 1 && op == "END" ==>
              Classify(symbol, op, operands, at) == Fail(Error(at, UnexpectedOperand))
    ensures |operands| == 1 && (op == "ORG" || op == "DEC") && !IsDecimal(operands[0]) ==>
              Classify(symbol, op, operands, at) == Fail(Error(at, InvalidDecimal))
    ensures |operands| == 1 && op == "HEX" && !IsHexadecimal(operands[0]) ==>
              Classify(symbol, op, operands, at) == Fail(Error(at, InvalidHexadecimal))
    ensures |operands| == 1 && op == "ORG" && IsDecimal(operands[0]) ==>
              Classify(symbol, op, operands, at) == Emit(Origin(ParseDecimal(operands[0])))
    ensures |operands| == 1 && op == "DEC" && IsDecimal(operands[0]) ==>
              Classify(symbol, op, operands, at) == Emit(Word(DEC, ParseDecimal(operands[0]), symbol))
    ensures |operands| == 1 && op == "HEX" && IsHexadecimal(operands[0]) ==>
              Classify(symbol, op, operands, at) == Emit(Word(HEX, ParseHexadecimal(operands[0]), symbol))
  {
    InstructionClasses(op);
  }

  /** Any other operation is rejected. */
  lemma UnrecognizedRule(symbol: Option<string>, op: string, operands: seq<string>, at: nat)
    requires symbol.Some? ==> IsLabel(symbol.value)
    requires op !in MRI && op !in RRI && op !in IO && op !in DIR
    ensures Classify(symbol, op, operands, at) == Fail(Error(at, UnrecognizedOperation))
  {
  }

  /** What every line contributes; line i is numbered i + 1. */
  function Outcomes(lines: seq<string>): seq<Outcome>
  {
    seq(|lines|, i requires 0 <= i < |lines| => ParseLine(lines[i], i + 1))
  }

  /** `parse` (src/assembler/Parser.ts:83-191): the error of the first
      failing line, or else the statements of the emitting lines in order. */
  function Parse(input: string): (r: Result<seq<Statement>, Error>)
    ensures var os := Outcomes(SourceLines(input));
            FirstFailure(os) < 0 ==> r == Ok(Emitted(os))
    ensures var os := Outcomes(SourceLines(input));
            0 <= FirstFailure(os) ==> r == Err(os[FirstFailure(os)].error)
  {
    var os := Outcomes(SourceLines(input));
    CollectChoosesFirstFailure(os, []);
    assert [] + Emitted(os) == Emitted(os);
    Collect(os, [])
  }

  /** The parse fails exactly when some line fails; it then reports the
      first failing line's error, numbered from 1, and every earlier line
      parsed. */
  lemma ParseFailsAtFirstBadLine(input: string)
    ensures var os := Outcomes(SourceLines(input));
            Parse(input).Err? <==> exists i :: 0 <= i < |os| && os[i].Fail?
    ensures Parse(input).Err? ==>
              var os := Outcomes(SourceLines(input));
              var e := Parse(input).error;
              1 <= e.at <= |os| && os[e.at - 1] == Fail(e)
              && forall j :: 0 <= j < e.at - 1 ==> !os[j].Fail?
  {
    var os := Outcomes(SourceLines(input));
    CollectFailsAtFirst(os);
    var k := FirstFailure(os);
    if 0 <= k {
      OutcomeNumbered(SourceLines(input), k);
    }
  }

  /** Line i's outcome, failing, names line i + 1. */
  lemma OutcomeNumbered(lines: seq<string>, i: nat)
    requires i < |lines| && Outcomes(lines)[i].Fail?
    ensures Outcomes(lines)[i].error.at == i + 1
  {
  }

  lemma OutcomesOfLines(lines: seq<string>)
    ensures forall i :: 0 <= i < |lines| ==> (Outcomes(lines)[i].Skip? <==> IsBlank(lines[i]))
    ensures forall i :: 0 <= i < |lines| && Outcomes(lines)[i].Emit? ==> WellFormed(Outcomes(lines)[i].statement)
  {
  }

  /** A successful parse yields one well-formed statement for every
      non-blank line, in line order. */
  lemma ParseSucceeds(input: string)
    requires Parse(input).Ok?
    ensures Parse(input).value == Emitted(Outcomes(SourceLines(input)))
    ensures |Parse(input).value| == |SourceLines(input)| - BlankLines(SourceLines(input))
    ensures forall k :: 0 <= k < |Parse(input).value| ==> WellFormed(Parse(input).value[k])
  {
    var lines := SourceLines(input);
    var os := Outcomes(lines);
    CollectSucceeds(os);
    OutcomesOfLines(lines);
    CountIfAgree(os, (o: Outcome) => o.Skip?, lines, (line: string) => IsBlank(line));
    EmittedSatisfy(os, WellFormed);
  }

  /** The statements the parser can produce: mnemonics from their own set,
      symbol-shaped names and addresses, unsigned hexadecimal words. */
  predicate WellFormed(st: Statement) {
    match st
    case MemoryReference(op, address, _, symbol) =>
      op in MRI && IsLabel(address) && (symbol.Some? ==> IsLabel(symbol.value))
    case NonMemoryReference(op, symbol) =>
      (op in RRI || op in IO) && (symbol.Some? ==> IsLabel(symbol.value))
    case Origin(_) => true
    case End => true
    case Word(directive, numeral, symbol) =>
      (directive == HEX ==> numeral >= 0) && (symbol.Some? ==> IsLabel(symbol.value))
  }

  function SymbolPrefix(symbol: Option<string>): string {
    match symbol
    case None => ""
    case Some(name) => name + ", "
  }

  /** The words of a statement after its symbol. */
  function Words(st: Statement): seq<string>
    requires WellFormed(st)
  {
    match st
    case MemoryReference(op, address, indirect, _) =>
      if indirect then [op, address, "I"] else [op, address]
    case NonMemoryReference(op, _) => [op]
    case Origin(numeral) => ["ORG", ShowDecimal(numeral)]
    case End => ["END"]
    case Word(DEC, numeral, _) => ["DEC", ShowDecimal(numeral)]
    case Word(HEX, numeral, _) => ["HEX", ShowHexadecimal(numeral)]
  }

  function SymbolOf(st: Statement): Option<string> {
    match st
    case MemoryReference(_, _, _, symbol) => symbol
    case NonMemoryReference(_, symbol) => symbol
    case Word(_, _, symbol) => symbol
    case _ => None
  }

  /** One statement as a source line. */
  function Render(st: Statement): string
    requires WellFormed(st)
  {
    SymbolPrefix(SymbolOf(st)) + Unwords(Words(st))
  }

  /** Every statement rendered as a line. */
  function Rendered(statements: seq<Statement>): seq<string>
    requires forall i :: 0 <= i < |statements| ==> WellFormed(statements[i])
  {
    seq(|statements|, i requires 0 <= i < |statements| => Render(statements[i]))
  }

  /** A whole program, one statement per line. */
  function Unparse(statements: seq<Statement>): string
    requires forall i :: 0 <= i < |statements| ==> WellFormed(statements[i])
  {
    JoinLines(Rendered(statements))
  }

  lemma WordsArePlain(st: Statement)
    requires WellFormed(st)
    ensures forall i :: 0 <= i < |Words(st)| ==> IsPlainWord(Words(st)[i])
  {
    match st {
    case MemoryReference(op, address, _, _) =>
      MnemonicIsPlain(op);
      LabelIsPlain(address);
      LabelIsPlain("I");
    case NonMemoryReference(op, _) =>
      MnemonicIsPlain(op);
    case Origin(numeral) =>
      LabelIsPlain("ORG");
      DecimalIsPlain(ShowDecimal(numeral));
    case End =>
      LabelIsPlain("END");
    case Word(DEC, numeral, _) =>
      LabelIsPlain("DEC");
      DecimalIsPlain(ShowDecimal(numeral));
    case Word(HEX, numeral, _) =>
      LabelIsPlain("HEX");
      HexadecimalIsPlain(ShowHexadecimal(numeral));
    }
  }

  lemma RenderIsPlain(st: Statement)
    requires WellFormed(st)
    ensures forall i :: 0 <= i < |Words(st)| ==> IsPlainWord(Words(st)[i])
    ensures IsPlainLine(Render(st))
  {
    WordsArePlain(st);
    UnwordsIsPlain(Words(st));
    if SymbolOf(st).Some? {
      LabelledLineIsPlain(SymbolOf(st).value, Unwords(Words(st)));
    } else {
      assert Render(st) == Unwords(Words(st));
    }
  }

  /** The parser reads a statement's words back as the statement. */
  lemma ClassifyWords(st: Statement, at: nat)
    requires WellFormed(st)
    ensures Classify(SymbolOf(st), Words(st)[0], Words(st)[1..], at) == Emit(st)
  {
    match st
    case MemoryReference(op, address, indirect, symbol) =>
      assert Words(st)[1..] == if indirect then [address, "I"] else [address];
    case NonMemoryReference(op, symbol) =>
      InstructionClasses(op);
    case Origin(numeral) =>
      InstructionClasses("ORG");
    case End =>
      InstructionClasses("END");
    case Word(DEC, numeral, _) =>
      InstructionClasses("DEC");
    case Word(HEX, numeral, _) =>
      InstructionClasses("HEX");
  }

  /** A non-blank line whose label, if any, is well formed reaches
      `Classify` with its label and its tokens. */
  lemma ParseLineParts(line: string, symbol: Option<string>, content: string, ws: seq<string>, at: nat)
    requires !IsBlank(line) && SplitLabel(line) == (symbol, content)
    requires symbol.Some? ==> IsLabel(symbol.value)
    requires Tokens(content) == ws && |ws| > 0
    ensures ParseLine(line, at) == Classify(symbol, ws[0], ws[1..], at)
  {
  }

  lemma ParseUnlabelled(ws: seq<string>, at: nat)
    requires |ws| > 0 && forall i :: 0 <= i < |ws| ==> IsPlainWord(ws[i])
    ensures ParseLine(Unwords(ws), at) == Classify(None, ws[0], ws[1..], at)
  {
    PlainWordsTokenize(ws);
    SplitUnlabelled(Unwords(ws));
    ParseLineParts(Unwords(ws), None, Unwords(ws), ws, at);
  }

  lemma ParseLabelled(name: string, ws: seq<string>, at: nat)
    requires IsLabel(name)
    requires |ws| > 0 && forall i :: 0 <= i < |ws| ==> IsPlainWord(ws[i])
    ensures ParseLine(name + ", " + Unwords(ws), at) == Classify(Some(name), ws[0], ws[1..], at)
  {
    PlainWordsTokenize(ws);
    SplitLabelled(name, Unwords(ws));
    ParseLineParts(name + ", " + Unwords(ws), Some(name), " " + Unwords(ws), ws, at);
  }

  /** A rendered statement parses back to itself, on any line. */
  lemma ParseRender(st: Statement, at: nat)
    requires WellFormed(st)
    ensures ParseLine(Render(st), at) == Emit(st)
  {
    RenderIsPlain(st);
    ClassifyWords(st, at);
    match SymbolOf(st)
    case None =>
      assert Render(st) == Unwords(Words(st));
      ParseUnlabelled(Words(st), at);
    case Some(name) =>
      assert Render(st) == name + ", " + Unwords(Words(st));
      ParseLabelled(name, Words(st), at);
  }

  lemma RenderedLinesParse(statements: seq<Statement>)
    requires forall i :: 0 <= i < |statements| ==> WellFormed(statements[i])
    ensures forall i :: 0 <= i < |statements| ==> ParseLine(Rendered(statements)[i], i + 1) == Emit(statements[i])
  {
    forall i | 0 <= i < |statements| ensures ParseLine(Rendered(statements)[i], i + 1) == Emit(statements[i]) {
      ParseRender(statements[i], i + 1);
    }
  }

  lemma OutcomesEmit(lines: seq<string>, statements: seq<Statement>)
    requires |lines| == |statements|
    requires forall i :: 0 <= i < |statements| ==> ParseLine(lines[i], i + 1) == Emit(statements[i])
    ensures |Outcomes(lines)| == |statements|
    ensures forall i :: 0 <= i < |statements| ==> Outcomes(lines)[i] == Emit(statements[i])
  {
  }

  /** A source whose every line parses to a statement parses to all of
      them, in order. */
  lemma ParseAllEmitted(input: string, statements: seq<Statement>)
    requires |SourceLines(input)| == |statements|
    requires forall i :: 0 <= i < |statements| ==> ParseLine(SourceLines(input)[i], i + 1) == Emit(statements[i])
    ensures Parse(input) == Ok(statements)
  {
    OutcomesEmit(SourceLines(input), statements);
    CollectAllEmitted(Outcomes(SourceLines(input)), statements);
  }

  lemma RenderedLinesArePlain(statements: seq<Statement>)
    requires forall i :: 0 <= i < |statements| ==> WellFormed(statements[i])
    ensures forall i :: 0 <= i < |statements| ==> IsPlainLine(Rendered(statements)[i])
  {
    forall i | 0 <= i < |statements| ensures IsPlainLine(Rendered(statements)[i]) {
      RenderIsPlain(statements[i]);
    }
  }

  /** An empty source is one blank line and parses to no statements. */
  lemma ParseEmpty()
    ensures Parse("") == Ok([])
  {
    assert SourceLines("") == [""];
    assert Outcomes([""]) == [Skip];
  }

  /** Every statement the parser can produce is written by `Unparse` in a
      form it reads back exactly. */
  lemma ParseUnparse(statements: seq<Statement>)
    requires forall i :: 0 <= i < |statements| ==> WellFormed(statements[i])
    ensures Parse(Unparse(statements)) == Ok(statements)
  {
    if |statements| == 0 {
      assert Unparse(statements) == "";
      ParseEmpty();
    } else {
      RenderedLinesArePlain(statements);
      PlainSourceLines(Rendered(statements));
      RenderedLinesParse(statements);
      ParseAllEmitted(Unparse(statements), statements);
    }
  }
}
