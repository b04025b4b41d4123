/** The newer line parser of the assembler (src/assembler/parse.ts): every
    statement records its line and its label, and every error its line and
    the offending text (src/assembler/error.ts:3-7, 30-32). */
module LineParser {
  import opened Results
  import opened Text
  import opened Numerals
  import opened Lexicon
  import opened Errors
  import opened LineFold

  /** The offending text an error carries: none, one token, or a run of
      surplus operands. */
  datatype Offending = Nothing | Token(token: string) | Surplus(tokens: seq<string>)

  /** `ErrAtLine(line)(cause, value)`. */
  datatype Error = Error(value: Offending, line: nat, cause: Cause)

  /** What follows the label; the constructors are the `Operation` enum
      (src/assembler/parse.ts:13-44). */
  datatype Content =
    | MemoryReference(instruction: string, address: string, indirect: bool)
    | NonMemoryReference(instruction: string)
    | End
    | Origin(hexadecimal: nat)
    | Hex(numeral: int)
    | Dec(numeral: int)

  datatype Statement = Statement(line: nat, symbol: Option<string>, content: Content)

  type Outcome = LineOutcome<Statement, Error>

  /** The contents the parser can produce. */
  predicate WellFormedContent(c: Content) {
    match c
    case MemoryReference(instruction, address, _) => instruction in MRI && IsLabel(address)
    case NonMemoryReference(instruction) => instruction in RRI || instruction in IO
    case Hex(numeral) => numeral >= 0
    case _ => true
  }

  predicate WellFormed(st: Statement) {
    WellFormedContent(st.content) && (st.symbol.Some? ==> IsLabel(st.symbol.value))
  }

  /** The operation and its operands (src/assembler/parse.ts:102-151). The
      memory-reference checks run in the order address missing, address
      malformed, surplus operands, indirection symbol wrong; an origin is
      hexadecimal; every statement keeps the label. */
  function Classify(symbol: Option<string>, op: string, operands: seq<string>, line: nat): (o: Outcome)
    requires symbol.Some? ==> IsLabel(symbol.value)
    ensures !o.Skip?
    ensures o.Fail? ==> o.error.line == line
    ensures o.Emit? ==> o.statement.line == line && o.statement.symbol == symbol && WellFormed(o.statement)
  {
    if op in MRI then
      if |operands| == 0 then Fail(Error(Nothing, line, NoAddress))
      else if !IsLabel(operands[0]) then Fail(Error(Token(operands[0]), line, InvalidAddress))
      else if |operands| > 2 then Fail(Error(Surplus(operands[2..]), line, TooManyMRIOperands))
      else if |operands| == 2 && !IsIndirectionSymbol(operands[1]) then
        Fail(Error(Token(operands[1]), line, InvalidIndirectionSymbol))
      else Emit(Statement(line, symbol, MemoryReference(op, operands[0], |operands| == 2)))
    else if op in RRI || op in IO then
      if |operands| > 0 then Fail(Error(Surplus(operands), line, TooManyNonMRIOperands))
      else Emit(Statement(line, symbol, NonMemoryReference(op)))
    else if op in DIR then
      // the source reports a directive's extra operands with the
      // memory-reference cause
      if |operands| > 1 then Fail(Error(Surplus(operands[1..]), line, TooManyMRIOperands))
      else if |operands| == 1 then
        var numeral := operands[0];
        if op == "ORG" then
          if !IsHexadecimal(numeral) then Fail(Error(Token(numeral), line, InvalidHexadecimal))
          else Emit(Statement(line, symbol, Origin(ParseHexadecimal(numeral))))
        else if op == "HEX" then
          if !IsHexadecimal(numeral) then Fail(Error(Token(numeral), line, InvalidHexadecimal))
          else Emit(Statement(line, symbol, Hex(ParseHexadecimal(numeral))))
        else if op == "DEC" then
          if !IsDecimal(numeral) then Fail(Error(Token(numeral), line, InvalidDecimal))
          else Emit(Statement(line, symbol, Dec(ParseDecimal(numeral))))
        else Fail(Error(Token(numeral), line, UnexpectedOperand))
      else if op != "END" then Fail(Error(Nothing, line, NoNumeral))
      else Emit(Statement(line, symbol, End))
    else Fail(Error(Token(op), line, UnrecognizedOperation))
  }

  /** The text after the label, if any (src/assembler/parse.ts:97-102). */
  function ParseContent(symbol: Option<string>, content: string, line: nat): (o: Outcome)
    requires symbol.Some? ==> IsLabel(symbol.value)
    ensures !o.Skip?
    ensures o.Fail? ==> o.error.line == line
    ensures o.Emit? ==> o.statement.line == line && o.statement.symbol == symbol && WellFormed(o.statement)
    ensures IsBlank(content) ==> o == Fail(Error(Nothing, line, EmptyContent))
  {
    var tokens := Tokens(content);
    if |tokens| == 0 then Fail(Error(Nothing, line, EmptyContent))
    else Classify(symbol, tokens[0], tokens[1..], line)
  }

  /** One line, numbered `line` (src/assembler/parse.ts:77-92): a blank
      line is skipped; trimmed text before the first comma must be a label
      and is reported when it is not. */
  function ParseLine(text: string, line: nat): (o: Outcome)
    ensures o.Skip? <==> IsBlank(text)
    ensures o.Fail? ==> o.error.line == line
    ensures o.Emit? ==> o.statement.line == line && WellFormed(o.statement)
  {
    if IsBlank(text) then Skip
    else
      var (symbol, content) := SplitLabel(text);
      if symbol.Some? && !IsLabel(symbol.value) then Fail(Error(Token(symbol.value), line, InvalidLabel))
      else ParseContent(symbol, content, line)
  }

  lemma ParseLineSplit(text: string, symbol: Option<string>, content: string, line: nat)
    requires !IsBlank(text) && SplitLabel(text) == (symbol, content)
    ensures symbol.Some? && !IsLabel(symbol.value) ==>
              ParseLine(text, line) == Fail(Error(Token(symbol.value), line, InvalidLabel))
    ensures symbol.None? || IsLabel(symbol.value) ==> ParseLine(text, line) == ParseContent(symbol, content, line)
  {
  }

  /** The label rules of a line: trimmed text before the first comma must
      be label-shaped, and is reported when it is not; something must
      follow it. */
  lemma LabelRules(text: string, line: nat)
    requires !IsBlank(text)
    ensures var k := Find(text, ',');
            0 <= k && !IsLabel(Trim(text[..k])) ==>
              ParseLine(text, line) == Fail(Error(Token(Trim(text[..k])), line, InvalidLabel))
    ensures var k := Find(text, ',');
            0 <= k && IsLabel(Trim(text[..k])) && IsBlank(text[k + 1..]) ==>
              ParseLine(text, line) == Fail(Error(Nothing, line, EmptyContent))
    ensures var k := Find(text, ','); var ws := Tokens(text[k + 1..]);
            0 <= k && IsLabel(Trim(text[..k])) && !IsBlank(text[k + 1..]) ==>
              ParseLine(text, line) == Classify(Some(Trim(text[..k])), ws[0], ws[1..], line)
  {
    var k := Find(text, ',');
    if 0 <= k {
      SplitAtComma(text);
      ParseLineSplit(text, Some(Trim(text[..k])), text[k + 1..], line);
    }
  }

  /** A line without a comma goes to `Classify` whole. */
  lemma UnlabelledLine(text: string, line: nat)
    requires !IsBlank(text) && ',' !in text
    ensures ParseLine(text, line) == Classify(None, Tokens(text)[0], Tokens(text)[1..], line)
  {
  }

  /** The memory-reference checks, in this parser's order: a missing
      address, a malformed address (reported), surplus operands (reported),
      then a wrong indirection symbol (reported). `indirect` is set exactly
      when a second operand is present. */
  lemma MemoryReferenceRules(symbol: Option<string>, op: string, operands: seq<string>, line: nat)
    requires symbol.Some? ==> IsLabel(symbol.value)
    requires op in MRI
    ensures |operands| == 0 ==> Classify(symbol, op, operands, line) == Fail(Error(Nothing, line, NoAddress))
    ensures |operands| > 0 && !IsLabel(operands[0]) ==>
              Classify(symbol, op, operands, line) == Fail(Error(Token(operands[0]), line, InvalidAddress))
    ensures |operands| > 2 && IsLabel(operands[0]) ==>
              Classify(symbol, op, operands, line) == Fail(Error(Surplus(operands[2..]), line, TooManyMRIOperands))
    ensures |operands| == 2 && IsLabel(operands[0]) && operands[1] != "I" ==>
              Classify(symbol, op, operands, line) == Fail(Error(Token(operands[1]), line, InvalidIndirectionSymbol))
    ensures Classify(symbol, op, operands, line).Emit? <==>
              1 <= |operands| <= 2 && IsLabel(operands[0]) && (|operands| == 2 ==> operands[1] == "I")
    ensures Classify(symbol, op, operands, line).Emit? ==>
              Classify(symbol, op, operands, line).statement
                == Statement(line, symbol, MemoryReference(op, operands[0], |operands| == 2))
  {
  }

  /** A register-reference or input-output mnemonic takes no operand; the
      operands are reported otherwise. */
  lemma NonMemoryReferenceRules(symbol: Option<string>, op: string, operands: seq<string>, line: nat)
    requires symbol.Some? ==> IsLabel(symbol.value)
    requires op in RRI || op in IO
    ensures |operands| == 0 ==>
              Classify(symbol, op, operands, line) == Emit(Statement(line, symbol, NonMemoryReference(op)))
    ensures |operands| > 0 ==>
              Classify(symbol, op, operands, line) == Fail(Error(Surplus(operands), line, TooManyNonMRIOperands))
  {
    InstructionClasses(op);
  }

  /** Directives: at most one operand, the surplus reported; ORG and HEX
      read an unsigned hexadecimal, DEC a signed decimal; END takes none;
      all of them keep the label. */
  lemma DirectiveRules(symbol: Option<string>, op: string, operands: seq<string>, line: nat)
    requires symbol.Some? ==> IsLabel(symbol.value)
    requires op in DIR
    ensures |operands| > 1 ==>
              Classify(symbol, op, operands, line) == Fail(Error(Surplus(operands[1..]), line, TooManyMRIOperands))
    ensures |operands| == 0 ==>
              Classify(symbol, op, operands, line)
                == if op == "END" then Emit(Statement(line, symbol, End)) else Fail(Error(Nothing, line, NoNumeral))
    ensures |operands| == 1 && op == "END" ==>
              Classify(symbol, op, operands, line) == Fail(Error(Token(operands[0]), line, UnexpectedOperand))
    ensures |operands| == 1 && (op == "ORG" || op == "HEX") && !IsHexadecimal(operands[0]) ==>
              Classify(symbol, op, operands, line) == Fail(Error(Token(operands[0]), line, InvalidHexadecimal))
    ensures |operands| == 1 && op == "DEC" && !IsDecimal(operands[0]) ==>
              Classify(symbol, op, operands, line) == Fail(Error(Token(operands[0]), line, InvalidDecimal))
    ensures |operands| == 1 && op == "ORG" && IsHexadecimal(operands[0]) ==>
              Classify(symbol, op, operands, line) == Emit(Statement(line, symbol, Origin(ParseHexadecimal(operands[0]))))
    ensures |operands| == 1 && op == "HEX" && IsHexadecimal(operands[0]) ==>
              Classify(symbol, op, operands, line) == Emit(Statement(line, symbol, Hex(ParseHexadecimal(operands[0]))))
    ensures |operands| == 1 && op == "DEC" && IsDecimal(operands[0]) ==>
              Classify(symbol, op, operands, line) == Emit(Statement(line, symbol, Dec(ParseDecimal(operands[0]))))
  {
    InstructionClasses(op);
  }

  /** Any other operation is rejected and reported. */
  lemma UnrecognizedRule(symbol: Option<string>, op: string, operands: seq<string>, line: nat)
    requires symbol.Some? ==> IsLabel(symbol.value)
    requires op !in MRI && op !in RRI && op !in IO && op !in DIR
    ensures Classify(symbol, op, operands, line) == Fail(Error(Token(op), line, UnrecognizedOperation))
  {
  }

  /** What every line contributes; line i is numbered i + 1. */
  function Outcomes(lines: seq<string>): seq<Outcome>
  {
    seq(|lines|, i requires 0 <= i < |lines| => ParseLine(lines[i], i + 1))
  }

  /** `parse` (src/assembler/parse.ts:70-155): the error of the first
      failing line, or else the statements of the emitting lines in order. */
  function Parse(input: string): (r: Result<seq<Statement>, Error>)
    ensures var os := Outcomes(SourceLines(input));
            FirstFailure(os) < 0 ==> r == Ok(Emitted(os))
    ensures var os := Outcomes(SourceLines(input));
            0 <= FirstFailure(os) ==> r == Err(os[FirstFailure(os)].error)
  {
    var os := Outcomes(SourceLines(input));
    CollectChoosesFirstFailure(os, []);
    assert [] + Emitted(os) == Emitted(os);
    Collect(os, [])
  }

  /** The parse fails exactly when some line fails; it then reports the
      first failing line's error, which names that line, and every earlier
      line parsed. */
  lemma ParseFailsAtFirstBadLine(input: string)
    ensures var os := Outcomes(SourceLines(input));
            Parse(input).Err? <==> exists i :: 0 <= i < |os| && os[i].Fail?
    ensures Parse(input).Err? ==>
              var os := Outcomes(SourceLines(input));
              var e := Parse(input).error;
              1 <= e.line <= |os| && os[e.line - 1] == Fail(e)
              && forall j :: 0 <= j < e.line - 1 ==> !os[j].Fail?
  {
    var os := Outcomes(SourceLines(input));
    CollectFailsAtFirst(os);
    var k := FirstFailure(os);
    if 0 <= k {
      OutcomeNumbered(SourceLines(input), k);
    }
  }

  lemma OutcomeNumbered(lines: seq<string>, i: nat)
    requires i < |lines|
    ensures Outcomes(lines)[i].Fail? ==> Outcomes(lines)[i].error.line == i + 1
    ensures Outcomes(lines)[i].Emit? ==> Outcomes(lines)[i].statement.line == i + 1
  {
  }

  lemma OutcomesOfLines(lines: seq<string>)
    ensures forall i :: 0 <= i < |lines| ==> (Outcomes(lines)[i].Skip? <==> IsBlank(lines[i]))
    ensures forall i :: 0 <= i < |lines| && Outcomes(lines)[i].Emit? ==>
              WellFormed(Outcomes(lines)[i].statement) && Outcomes(lines)[i].statement.line == i + 1
  {
  }

  function LineOf(st: Statement): int {
    st.line
  }

  /** A successful parse yields one well-formed statement for every
      non-blank line, in line order, each recording its own line. */
  lemma ParseSucceeds(input: string)
    requires Parse(input).Ok?
    ensures Parse(input).value == Emitted(Outcomes(SourceLines(input)))
    ensures |Parse(input).value| == |SourceLines(input)| - BlankLines(SourceLines(input))
    ensures forall k :: 0 <= k < |Parse(input).value| ==> WellFormed(Parse(input).value[k])
    ensures forall k :: 0 <= k < |Parse(input).value| ==> 1 <= Parse(input).value[k].line <= |SourceLines(input)|
    ensures forall a, b :: 0 <= a < b < |Parse(input).value| ==> Parse(input).value[a].line < Parse(input).value[b].line
  {
    var lines := SourceLines(input);
    var os := Outcomes(lines);
    CollectSucceeds(os);
    OutcomesOfLines(lines);
    CountIfAgree(os, (o: Outcome) => o.Skip?, lines, (line: string) => IsBlank(line));
    EmittedSatisfy(os, WellFormed);
    EmittedInLineOrder(os, LineOf, 1);
  }

  function SymbolPrefix(symbol: Option<string>): string {
    match symbol
    case None => ""
    case Some(name) => name + ", "
  }

  /** The words of a content. */
  function Words(c: Content): seq<string>
    requires WellFormedContent(c)
  {
    match c
    case MemoryReference(op, address, indirect) =>
      if indirect then [op, address, "I"] else [op, address]
    case NonMemoryReference(op) => [op]
    case End => ["END"]
    case Origin(hexadecimal) => ["ORG", ShowHexadecimal(hexadecimal)]
    case Hex(numeral) => ["HEX", ShowHexadecimal(numeral)]
    case Dec(numeral) => ["DEC", ShowDecimal(numeral)]
  }

  /** One statement as a source line; its line number is where the line
      goes, not part of the text. */
  function Render(st: Statement): string
    requires WellFormed(st)
  {
    SymbolPrefix(st.symbol) + Unwords(Words(st.content))
  }

  function Rendered(statements: seq<Statement>): seq<string>
    requires forall i :: 0 <= i < |statements| ==> WellFormed(statements[i])
  {
    seq(|statements|, i requires 0 <= i < |statements| => Render(statements[i]))
  }

  /** A whole program, one statement per line. */
  function Unparse(statements: seq<Statement>): string
    requires forall i :: 0 <= i < |statements| ==> WellFormed(statements[i])
  {
    JoinLines(Rendered(statements))
  }

  lemma WordsArePlain(c: Content)
    requires WellFormedContent(c)
    ensures forall i :: 0 <= i < |Words(c)| ==> IsPlainWord(Words(c)[i])
  {
    match c {
    case MemoryReference(op, address, _) =>
      MnemonicIsPlain(op);
      LabelIsPlain(address);
      LabelIsPlain("I");
    case NonMemoryReference(op) =>
      MnemonicIsPlain(op);
    case End =>
      LabelIsPlain("END");
    case Origin(hexadecimal) =>
      LabelIsPlain("ORG");
      HexadecimalIsPlain(ShowHexadecimal(hexadecimal));
    case Hex(numeral) =>
      LabelIsPlain("HEX");
      HexadecimalIsPlain(ShowHexadecimal(numeral));
    case Dec(numeral) =>
      LabelIsPlain("DEC");
      DecimalIsPlain(ShowDecimal(numeral));
    }
  }

  lemma RenderIsPlain(st: Statement)
    requires WellFormed(st)
    ensures forall i :: 0 <= i < |Words(st.content)| ==> IsPlainWord(Words(st.content)[i])
    ensures IsPlainLine(Render(st))
  {
    WordsArePlain(st.content);
    UnwordsIsPlain(Words(st.content));
    if st.symbol.Some? {
      LabelledLineIsPlain(st.symbol.value, Unwords(Words(st.content)));
    } else {
      assert Render(st) == Unwords(Words(st.content));
    }
  }

  /** The parser reads a statement's words back as the statement. */
  lemma ClassifyWords(st: Statement)
    requires WellFormed(st)
    ensures var ws := Words(st.content); Classify(st.symbol, ws[0], ws[1..], st.line) == Emit(st)
  {
    match st.content
    case MemoryReference(op, address, indirect) =>
      assert Words(st.content)[1..] == if indirect then [address, "I"] else [address];
    case NonMemoryReference(op) =>
      InstructionClasses(op);
    case End =>
      InstructionClasses("END");
    case Origin(_) =>
      InstructionClasses("ORG");
    case Hex(_) =>
      InstructionClasses("HEX");
    case Dec(_) =>
      InstructionClasses("DEC");
  }

  /** A non-blank line whose label, if any, is well formed reaches
      `Classify` with its label and its tokens. */
  lemma ParseLineParts(text: string, symbol: Option<string>, content: string, ws: seq<string>, line: nat)
    requires !IsBlank(text) && SplitLabel(text) == (symbol, content)
    requires symbol.Some? ==> IsLabel(symbol.value)
    requires Tokens(content) == ws && |ws| > 0
    ensures ParseLine(text, line) == Classify(symbol, ws[0], ws[1..], line)
  {
  }

  lemma ParseUnlabelled(ws: seq<string>, line: nat)
    requires |ws| > 0 && forall i :: 0 <= i < |ws| ==> IsPlainWord(ws[i])
    ensures ParseLine(Unwords(ws), line) == Classify(None, ws[0], ws[1..], line)
  {
    PlainWordsTokenize(ws);
    SplitUnlabelled(Unwords(ws));
    ParseLineParts(Unwords(ws), None, Unwords(ws), ws, line);
  }

  lemma ParseLabelled(name: string, ws: seq<string>, line: nat)
    requires IsLabel(name)
    requires |ws| > 0 && forall i :: 0 <= i < |ws| ==> IsPlainWord(ws[i])
    ensures ParseLine(name + ", " + Unwords(ws), line) == Classify(Some(name), ws[0], ws[1..], line)
  {
    PlainWordsTokenize(ws);
    SplitLabelled(name, Unwords(ws));
    ParseLineParts(name + ", " + Unwords(ws), Some(name), " " + Unwords(ws), ws, line);
  }

  /** A rendered statement, placed on its own line, parses back to itself. */
  lemma ParseRender(st: Statement)
    requires WellFormed(st)
    ensures ParseLine(Render(st), st.line) == Emit(st)
  {
    RenderIsPlain(st);
    ClassifyWords(st);
    match st.symbol
    case None =>
      assert Render(st) == Unwords(Words(st.content));
      ParseUnlabelled(Words(st.content), st.line);
    case Some(name) =>
      assert Render(st) == name + ", " + Unwords(Words(st.content));
      ParseLabelled(name, Words(st.content), st.line);
  }

  /** Statements numbered 1, 2, ... in order: what `Unparse` writes. */
  predicate Numbered(statements: seq<Statement>) {
    forall i :: 0 <= i < |statements| ==> statements[i].line == i + 1
  }

  lemma RenderedLinesParse(statements: seq<Statement>)
    requires forall i :: 0 <= i < |statements| ==> WellFormed(statements[i])
    requires Numbered(statements)
    ensures forall i :: 0 <= i < |statements| ==> ParseLine(Rendered(statements)[i], i + 1) == Emit(statements[i])
  {
    forall i | 0 <= i < |statements| ensures ParseLine(Rendered(statements)[i], i + 1) == Emit(statements[i]) {
      ParseRender(statements[i]);
    }
  }

  lemma OutcomesEmit(lines: seq<string>, statements: seq<Statement>)
    requires |lines| == |statements|
    requires forall i :: 0 <= i < |statements| ==> ParseLine(lines[i], i + 1) == Emit(statements[i])
    ensures |Outcomes(lines)| == |statements|
    ensures forall i :: 0 <= i < |statements| ==> Outcomes(lines)[i] == Emit(statements[i])
  {
  }

  lemma ParseAllEmitted(input: string, statements: seq<Statement>)
    requires |SourceLines(input)| == |statements|
    requires forall i :: 0 <= i < |statements| ==> ParseLine(SourceLines(input)[i], i + 1) == Emit(statements[i])
    ensures Parse(input) == Ok(statements)
  {
    OutcomesEmit(SourceLines(input), statements);
    CollectAllEmitted(Outcomes(SourceLines(input)), statements);
  }


  /** An empty source is one blank line and parses to no statements. */
  lemma ParseEmpty()
    ensures Parse("") == Ok([])
  {
    assert SourceLines("") == [""];
    assert Outcomes([""]) == [Skip];
  }

  /** Well-formed statements numbered 1, 2, ... are written by `Unparse`
      in a form the parser reads back exactly, line numbers included. */
  lemma ParseUnparse(statements: seq<Statement>)
    requires forall i :: 0 <= i < |statements| ==> WellFormed(statements[i])
    requires Numbered(statements)
    ensures Parse(Unparse(statements)) == Ok(statements)
  {
    if |statements| == 0 {
      assert Unparse(statements) == "";
      ParseEmpty();
    } else {
      forall i | 0 <= i < |statements| ensures IsPlainLine(Rendered(statements)[i]) {
        RenderIsPlain(statements[i]);
      }
      PlainSourceLines(Rendered(statements));
      RenderedLinesParse(statements);
      ParseAllEmitted(Unparse(statements), statements);
    }
  }
}
