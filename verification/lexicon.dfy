/** What the two line parsers share besides the numerals: the label
    pattern, the indirection marker and the four closed mnemonic sets
    (src/assembler/Parser.ts:5, 67-79 and src/assembler/parse.ts:6, 35-49). */
module Lexicon {
  import opened Results
  import opened Text
  import opened Numerals

  predicate IsLetter(c: char) {
    'A' <= c <= 'Z'
  }

  /** `^[A-Z][0-9A-Z]{0,2}$` */
  predicate IsLabel(s: string) {
    1 <= |s| <= 3 && IsLetter(s[0])
    && forall i :: 1 <= i < |s| ==> IsLetter(s[i]) || IsDigit(s[i])
  }

  predicate IsIndirectionSymbol(s: string) {
    s == "I"
  }

  /** Directives. */
  const DIR: set<string> := {"ORG", "END", "DEC", "HEX"}

  /** Input-output instructions. */
  const IO: set<string> := {"INP", "OUT", "SKI", "SKO", "ION", "IOF"}

  /** Memory-reference instructions. */
  const MRI: set<string> := {"AND", "ADD", "LDA", "STA", "BUN", "BSA", "ISZ"}

  /** Register-reference instructions. */
  const RRI: set<string> := {"CLA", "CLE", "CMA", "CME", "CIR", "CIL", "INC", "SPA", "SNA",
                              "SZA", "SZE", "HLT"}

  /** The characters a rendered statement's words are made of. */
  predicate IsPlainChar(c: char) {
    IsLetter(c) || IsDigit(c) || c == '-' || c == '+'
  }

  /** A word both parsers read back unchanged: non-empty and plain. */
  predicate IsPlainWord(w: string) {
    |w| > 0 && forall i :: 0 <= i < |w| ==> IsPlainChar(w[i])
  }

  /** A rendered line: plain words, the spaces between them and the comma
      after a label. */
  predicate IsPlainLine(s: string) {
    forall i :: 0 <= i < |s| ==> IsPlainChar(s[i]) || s[i] == ' ' || s[i] == ','
  }

  lemma PlainWordIsWord(w: string)
    requires IsPlainWord(w)
    ensures IsWord(w) && ',' !in w && IsPlainLine(w)
  {
  }

  lemma LabelIsPlain(s: string)
    requires IsLabel(s)
    ensures IsPlainWord(s)
  {
  }

  lemma DecimalIsPlain(s: string)
    requires IsDecimal(s)
    ensures IsPlainWord(s)
  {
    if s[0] == '-' || s[0] == '+' {
      forall i | 1 <= i < |s| ensures IsPlainChar(s[i]) {
        assert s[i] == s[1..][i - 1];
      }
    }
  }

  lemma HexadecimalIsPlain(s: string)
    requires IsHexadecimal(s)
    ensures IsPlainWord(s)
  {
  }

  lemma MnemonicIsPlain(s: string)
    requires s in MRI || s in RRI || s in IO || s in DIR
    ensures IsPlainWord(s)
  {
    assert IsLabel(s);
  }

  /** No mnemonic belongs to two of the four sets. */
  lemma InstructionClasses(op: string)
    ensures op in MRI ==> op !in RRI && op !in IO && op !in DIR
    ensures op in RRI ==> op !in MRI && op !in IO && op !in DIR
    ensures op in IO ==> op !in MRI && op !in RRI && op !in DIR
    ensures op in DIR ==> op !in MRI && op !in RRI && op !in IO
  {
  }

  /** Plain words joined by spaces form a plain line without a comma. */
  lemma UnwordsIsPlain(ws: seq<string>)
    requires forall i :: 0 <= i < |ws| ==> IsPlainWord(ws[i])
    ensures IsPlainLine(Unwords(ws)) && ',' !in Unwords(ws)
  {
    var s := Unwords(ws);
    forall k | 0 <= k < |s| ensures IsPlainChar(s[k]) || s[k] == ' ' {
      var c := s[k];
      UnwordsChars(ws, c);
      if c != ' ' {
        var i :| 0 <= i < |ws| && c in ws[i];
        var j :| 0 <= j < |ws[i]| && ws[i][j] == c;
        assert IsPlainChar(ws[i][j]);
      }
    }
  }

  /** Plain words joined by spaces tokenize back to themselves, with or
      without a space in front. */
  lemma PlainWordsTokenize(ws: seq<string>)
    requires |ws| > 0 && forall i :: 0 <= i < |ws| ==> IsPlainWord(ws[i])
    ensures Tokens(Unwords(ws)) == ws && Tokens(" " + Unwords(ws)) == ws
    ensures !IsBlank(Unwords(ws)) && ',' !in Unwords(ws)
  {
    forall i | 0 <= i < |ws| ensures IsWord(ws[i]) {
      PlainWordIsWord(ws[i]);
    }
    TokensOfUnwords(ws);
    TokensSkipLeadingSpace(Unwords(ws));
    UnwordsIsPlain(ws);
  }

  /** A label, a comma and a plain line form a plain line. */
  lemma LabelledLineIsPlain(name: string, content: string)
    requires IsLabel(name) && IsPlainLine(content)
    ensures IsPlainLine(name + ", " + content)
  {
    var s := name + ", " + content;
    forall k | 0 <= k < |s| ensures IsPlainChar(s[k]) || s[k] == ' ' || s[k] == ',' {
      if k >= |name| + 2 {
        assert s[k] == content[k - |name| - 2];
      }
    }
  }

  /** Plain lines joined by line feeds reach a parser exactly as written:
      upper-casing, comment removal and splitting change nothing. */
  lemma {:induction false} PlainSourceLines(lines: seq<string>)
    requires |lines| >= 1
    requires forall i :: 0 <= i < |lines| ==> IsPlainLine(lines[i])
    ensures SourceLines(JoinLines(lines)) == lines
  {
    var s := JoinLines(lines);
    forall k | 0 <= k < |s| ensures s[k] == '\n' || IsPlainChar(s[k]) || s[k] == ' ' || s[k] == ',' {
      var c := s[k];
      JoinLinesChars(lines, c);
      if c != '\n' {
        var i :| 0 <= i < |lines| && c in lines[i];
        var j :| 0 <= j < |lines[i]| && lines[i][j] == c;
        assert IsPlainChar(lines[i][j]) || lines[i][j] == ' ' || lines[i][j] == ',';
      }
    }
    assert ToUpper(s) == s;
    assert '/' !in s;
    forall i, j | 0 <= i < |lines| && 0 <= j < |lines[i]| ensures lines[i][j] != '\n' {
      assert IsPlainChar(lines[i][j]) || lines[i][j] == ' ' || lines[i][j] == ',';
    }
    SplitJoinLines(lines);
  }

  /** A line cut at its first comma into the trimmed text before it, the
      would-be label, and the text after it; a line without a comma has no
      label and is all content. */
  function SplitLabel(line: string): (r: (Option<string>, string))
    ensures r.0.None? <==> ',' !in line
    ensures r.0.None? ==> r.1 == line
    ensures r.0.Some? ==> |r.1| < |line| && var k := |line| - |r.1| - 1;
              line[k] == ',' && ',' !in line[..k] && r.0.value == Trim(line[..k]) && line[k + 1..] == r.1
  {
    var comma := Find(line, ',');
    if comma < 0 then (None, line) else (Some(Trim(line[..comma])), line[comma + 1..])
  }

  lemma SplitAtComma(line: string)
    requires 0 <= Find(line, ',')
    ensures var k := Find(line, ',');
            SplitLabel(line) == (Some(Trim(line[..k])), line[k + 1..])
  {
  }

  /** Whatever precedes the first comma, trimmed, is the would-be label,
      and everything after that comma, later commas included, is the
      content. */
  lemma SplitAtFirstComma(before: string, after: string)
    requires ',' !in before
    ensures SplitLabel(before + "," + after) == (Some(Trim(before)), after)
  {
    var line := before + "," + after;
    FindAfter(before, after, ',');
    assert line[..|before|] == before;
    assert line[|before| + 1..] == after;
  }

  lemma SplitUnlabelled(line: string)
    requires ',' !in line
    ensures SplitLabel(line) == (None, line)
  {
  }

  /** A label, a comma and a space: the label is cut off whole, and the
      line is not blank. */
  lemma SplitLabelled(name: string, rest: string)
    requires IsLabel(name)
    ensures SplitLabel(name + ", " + rest) == (Some(name), " " + rest)
    ensures !IsBlank(name + ", " + rest)
  {
    var line := name + ", " + rest;
    LabelIsPlain(name);
    PlainWordIsWord(name);
    assert line == name + [','] + (" " + rest);
    FindAfter(name, " " + rest, ',');
    assert line[..|name|] == name;
    assert line[|name| + 1..] == " " + rest;
    assert !IsSpace(line[0]);
  }
}
