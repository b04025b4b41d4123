/** ASCII string handling shared by both line parsers of the assembler:
    the regular expressions `\s`, `^\s*$`, `\S+` and `\/.*`, and the
    JavaScript string methods `toUpperCase`, `indexOf`, `trim` and
    `split('\n')`, each restricted to ASCII text. */
module Text {

  /** JavaScript's `\s` below 0x80: space, tab, line feed, vertical tab,
      form feed and carriage return. */
  predicate IsSpace(c: char) {
    c == ' ' || '\t' <= c <= '\r'
  }

  /** `^\s*$` */
  predicate IsBlank(s: string) {
    forall i :: 0 <= i < |s| ==> IsSpace(s[i])
  }

  /** What one match of `\S+` can be: non-empty and free of whitespace. */
  predicate IsWord(w: string) {
    |w| > 0 && forall i :: 0 <= i < |w| ==> !IsSpace(w[i])
  }

  predicate IsLower(c: char) {
    'a' <= c <= 'z'
  }

  /** `.` in a JavaScript regular expression matches neither of these. */
  predicate IsLineTerminator(c: char) {
    c == '\n' || c == '\r'
  }

  function UpperChar(c: char): char
  {
    if IsLower(c) then (c as int - 32) as char else c
  }

  /** `toUpperCase` on ASCII text: lower-case letters move to upper case,
      every other character is kept, and the result has no lower-case
      letter left. The text is unchanged exactly when it had none. */
  function ToUpper(s: string): (r: string)
    ensures |r| == |s|
    ensures forall i :: 0 <= i < |s| && IsLower(s[i]) ==> r[i] as int == s[i] as int - 32
    ensures forall i :: 0 <= i < |s| && !IsLower(s[i]) ==> r[i] == s[i]
    ensures forall i :: 0 <= i < |r| ==> !IsLower(r[i])
    ensures r == s <==> forall i :: 0 <= i < |s| ==> !IsLower(s[i])
  {
    seq(|s|, i requires 0 <= i < |s| => UpperChar(s[i]))
  }

  /** `indexOf`: the position of the first `c`, or -1 when there is none. */
  function Find(s: string, c: char): (k: int)
    ensures -1 <= k < |s|
    ensures k < 0 <==> c !in s
    ensures 0 <= k ==> s[k] == c && c !in s[..k]
  {
    if |s| == 0 then -1
    else if s[0] == c then 0
    else
      var k := Find(s[1..], c);
      if k < 0 then -1
      else
        assert s[..k + 1] == [s[0]] + s[1..][..k];
        k + 1
  }

  lemma FindAfter(a: string, b: string, c: char)
    requires c !in a
    ensures Find(a + [c] + b, c) == |a|
  {
    var s := a + [c] + b;
    assert s[|a|] == c;
    assert s[..|a|] == a;
  }

  /** How many times `c` occurs in `s`. */
  function Count(s: string, c: char): (n: nat)
    ensures n == 0 <==> c !in s
  {
    if |s| == 0 then 0 else (if s[0] == c then 1 else 0) + Count(s[1..], c)
  }

  lemma {:induction false} CountAppend(a: string, b: string, c: char)
    ensures Count(a + b, c) == Count(a, c) + Count(b, c)
    decreases |a|
  {
    if |a| == 0 {
      assert a + b == b;
    } else {
      assert (a + b)[1..] == a[1..] + b;
      CountAppend(a[1..], b, c);
    }
  }

  /** `replaceAll(/\/.*\/g, "")` (the pattern is a slash followed by `.*`):
      every slash is removed together with the rest of its line, up to but
      not including the next line terminator. No slash is left, no line
      feed is lost (so line numbers survive), and text without a slash is
      unchanged. */
  function StripComments(s: string): (r: string)
    ensures '/' !in r
    ensures Count(r, '\n') == Count(s, '\n')
    ensures '/' !in s ==> r == s
    decreases |s|, 0
  {
    if |s| == 0 then []
    else
      assert s == [s[0]] + s[1..];
      if s[0] == '/' then SkipComment(s[1..])
      else [s[0]] + StripComments(s[1..])
  }

  /** The tail of a comment: drops characters up to the next line terminator. */
  function SkipComment(s: string): (r: string)
    ensures '/' !in r
    ensures Count(r, '\n') == Count(s, '\n')
    decreases |s|, 1
  {
    if |s| == 0 then []
    else if IsLineTerminator(s[0]) then StripComments(s)
    else
      assert s == [s[0]] + s[1..];
      SkipComment(s[1..])
  }

  lemma StripCommentsCons(x: char, t: string)
    ensures StripComments([x] + t) == if x == '/' then SkipComment(t) else [x] + StripComments(t)
  {
    assert ([x] + t)[1..] == t;
  }

  lemma SkipCommentCons(x: char, t: string)
    ensures SkipComment([x] + t) == if IsLineTerminator(x) then StripComments([x] + t) else SkipComment(t)
  {
    assert ([x] + t)[1..] == t;
  }

  lemma ConsAcrossLineFeed(x: char, p: string, q: string)
    ensures [x] + (p + "\n" + q) == [x] + p + "\n" + q
  {
  }

  /** A comment never reaches past the line feed that ends its line. */
  lemma {:induction false} StripCommentsAcrossLineFeed(a: string, b: string)
    requires '\n' !in a
    ensures StripComments(a + "\n" + b) == StripComments(a) + "\n" + StripComments(b)
    decreases |a|, 0
  {
    if |a| == 0 {
      assert a + "\n" + b == ['\n'] + b;
      StripCommentsCons('\n', b);
    } else {
      var x, t := a[0], a[1..];
      assert a == [x] + t;
      assert a + "\n" + b == [x] + (t + "\n" + b);
      StripCommentsCons(x, t + "\n" + b);
      StripCommentsCons(x, t);
      if x == '/' {
        SkipCommentAcrossLineFeed(t, b);
      } else {
        StripCommentsAcrossLineFeed(t, b);
        ConsAcrossLineFeed(x, StripComments(t), StripComments(b));
      }
    }
  }

  lemma {:induction false} SkipCommentAcrossLineFeed(a: string, b: string)
    requires '\n' !in a
    ensures SkipComment(a + "\n" + b) == SkipComment(a) + "\n" + StripComments(b)
    decreases |a|, 1
  {
    if |a| == 0 {
      assert a + "\n" + b == ['\n'] + b;
      SkipCommentCons('\n', b);
      StripCommentsCons('\n', b);
    } else {
      var x, t := a[0], a[1..];
      assert a == [x] + t;
      assert a + "\n" + b == [x] + (t + "\n" + b);
      SkipCommentCons(x, t + "\n" + b);
      SkipCommentCons(x, t);
      if IsLineTerminator(x) {
        StripCommentsAcrossLineFeed(a, b);
      } else {
        SkipCommentAcrossLineFeed(t, b);
      }
    }
  }

  /** A line cut just before its first slash, or the whole line. */
  function CutAtSlash(line: string): string
  {
    var k := Find(line, '/');
    if k < 0 then line else line[..k]
  }

  /** On one line with no line terminator in it, comment stripping keeps
      exactly the text before the first slash. */
  lemma {:induction false} StripCommentsCutsLine(line: string)
    requires forall i :: 0 <= i < |line| ==> !IsLineTerminator(line[i])
    ensures StripComments(line) == CutAtSlash(line)
    decreases |line|
  {
    if |line| > 0 {
      if line[0] == '/' {
        SkipCommentDropsLine(line[1..]);
      } else {
        StripCommentsCutsLine(line[1..]);
        var k := Find(line[1..], '/');
        if 0 <= k {
          assert line[..k + 1] == [line[0]] + line[1..][..k];
        }
      }
    }
  }

  lemma {:induction false} SkipCommentDropsLine(s: string)
    requires forall i :: 0 <= i < |s| ==> !IsLineTerminator(s[i])
    ensures SkipComment(s) == []
    decreases |s|
  {
    if |s| > 0 {
      SkipCommentDropsLine(s[1..]);
    }
  }

  /** `split('\n')` joined back with line feeds. */
  function JoinLines(lines: seq<string>): string
  {
    if |lines| == 0 then ""
    else if |lines| == 1 then lines[0]
    else lines[0] + "\n" + JoinLines(lines[1..])
  }

  lemma JoinLinesCons(a: string, rest: seq<string>)
    requires |rest| >= 1
    ensures JoinLines([a] + rest) == a + "\n" + JoinLines(rest)
  {
    assert ([a] + rest)[1..] == rest;
  }

  lemma CountAtFirst(s: string, k: nat, c: char)
    requires k < |s| && s[k] == c && c !in s[..k]
    ensures Count(s, c) == Count(s[k + 1..], c) + 1
  {
    assert s == s[..k] + s[k..];
    CountAppend(s[..k], s[k..], c);
    assert s[k..][1..] == s[k + 1..];
  }

  /** A text is the part before position k, the character at k and the part after. */
  lemma SplitAround(s: string, k: nat)
    requires k < |s|
    ensures s == s[..k] + [s[k]] + s[k + 1..]
  {
  }

  /** `split('\n')`: one more piece than there are line feeds, no piece
      holds a line feed, and joining the pieces back gives the text. */
  function SplitLines(s: string): (lines: seq<string>)
    ensures |lines| == Count(s, '\n') + 1
    ensures forall i :: 0 <= i < |lines| ==> '\n' !in lines[i]
    ensures JoinLines(lines) == s
    decreases |s|
  {
    var k := Find(s, '\n');
    if k < 0 then [s]
    else
      var rest := SplitLines(s[k + 1..]);
      CountAtFirst(s, k, '\n');
      JoinLinesCons(s[..k], rest);
      SplitAround(s, k);
      [s[..k]] + rest
  }

  lemma SplitLinesCons(a: string, b: string)
    requires '\n' !in a
    ensures SplitLines(a + "\n" + b) == [a] + SplitLines(b)
  {
    FindAfter(a, b, '\n');
    var s := a + "\n" + b;
    assert s[..|a|] == a;
    assert s[|a| + 1..] == b;
  }

  /** Splitting undoes joining for lines without line feeds. */
  lemma {:induction false} SplitJoinLines(lines: seq<string>)
    requires |lines| >= 1
    requires forall i :: 0 <= i < |lines| ==> '\n' !in lines[i]
    ensures SplitLines(JoinLines(lines)) == lines
    decreases |lines|
  {
    if |lines| == 1 {
      assert Find(lines[0], '\n') < 0;
    } else {
      SplitLinesCons(lines[0], JoinLines(lines[1..]));
      SplitJoinLines(lines[1..]);
    }
  }

  lemma {:induction false} JoinLinesChars(lines: seq<string>, c: char)
    requires c in JoinLines(lines)
    ensures c == '\n' || exists i :: 0 <= i < |lines| && c in lines[i]
    decreases |lines|
  {
    if |lines| > 1 {
      var rest := JoinLines(lines[1..]);
      if c in lines[0] {
      } else if c in rest {
        JoinLinesChars(lines[1..], c);
        if c != '\n' {
          var i :| 0 <= i < |lines[1..]| && c in lines[1..][i];
          assert c in lines[i + 1];
        }
      }
    }
  }

  /** Every line with its comment stripped. */
  function StripEach(lines: seq<string>): (r: seq<string>)
    ensures |r| == |lines|
    ensures forall i :: 0 <= i < |lines| ==> r[i] == StripComments(lines[i])
  {
    if |lines| == 0 then [] else [StripComments(lines[0])] + StripEach(lines[1..])
  }

  lemma SplitSingleLine(s: string)
    requires '\n' !in s
    ensures SplitLines(s) == [s]
  {
  }

  lemma SplitAtFirstLineFeed(s: string, k: int)
    requires k == Find(s, '\n') && 0 <= k
    ensures s == s[..k] + "\n" + s[k + 1..]
    ensures SplitLines(s) == [s[..k]] + SplitLines(s[k + 1..])
  {
    SplitAround(s, k);
  }

  /** Stripping the whole text and then splitting it is the same as
      splitting it and stripping every line on its own. */
  lemma {:induction false} StripCommentsPerLine(s: string)
    ensures SplitLines(StripComments(s)) == StripEach(SplitLines(s))
    decreases |s|
  {
    var k := Find(s, '\n');
    if k < 0 {
      SplitSingleLine(StripComments(s));
    } else {
      var a, b := s[..k], s[k + 1..];
      SplitAtFirstLineFeed(s, k);
      StripCommentsAcrossLineFeed(a, b);
      SplitLinesCons(StripComments(a), StripComments(b));
      StripCommentsPerLine(b);
      StripEachCons(a, SplitLines(b));
    }
  }

  lemma StripEachCons(a: string, rest: seq<string>)
    ensures StripEach([a] + rest) == [StripComments(a)] + StripEach(rest)
  {
    assert ([a] + rest)[1..] == rest;
  }

  /** The lines a parser sees: the source upper-cased, stripped of
      comments and split at line feeds. */
  function SourceLines(input: string): seq<string>
  {
    SplitLines(StripComments(ToUpper(input)))
  }

  /** Line i of the parser's view is line i of the upper-cased source with
      its comment removed; on a line without a carriage return that is the
      text before its first slash. */
  lemma SourceLinesAreStrippedLines(input: string, i: nat)
    requires i < |SplitLines(ToUpper(input))|
    ensures |SourceLines(input)| == |SplitLines(ToUpper(input))|
    ensures SourceLines(input)[i] == StripComments(SplitLines(ToUpper(input))[i])
    ensures '\r' !in SplitLines(ToUpper(input))[i] ==>
              SourceLines(input)[i] == CutAtSlash(SplitLines(ToUpper(input))[i])
  {
    var line := SplitLines(ToUpper(input))[i];
    StripCommentsPerLine(ToUpper(input));
    if '\r' !in line {
      StripCommentsCutsLine(line);
    }
  }

  /** Number of whitespace characters the text starts with. */
  function LeadingSpaces(s: string): (n: nat)
    ensures n <= |s|
    ensures forall k :: 0 <= k < n ==> IsSpace(s[k])
    ensures n == |s| || !IsSpace(s[n])
  {
    if |s| > 0 && IsSpace(s[0]) then 1 + LeadingSpaces(s[1..]) else 0
  }

  /** Number of whitespace characters the text ends with. */
  function TrailingSpaces(s: string): (n: nat)
    ensures n <= |s|
    ensures forall k :: |s| - n <= k < |s| ==> IsSpace(s[k])
    ensures n == |s| || !IsSpace(s[|s| - n - 1])
  {
    if |s| > 0 && IsSpace(s[|s| - 1]) then 1 + TrailingSpaces(s[..|s| - 1]) else 0
  }

  /** `trim`: the text between its leading and its trailing whitespace;
      text that neither starts nor ends with whitespace is kept whole. */
  function Trim(s: string): (r: string)
    ensures var i := LeadingSpaces(s);
            i + |r| <= |s| && r == s[i..i + |r|]
            && (forall k :: 0 <= k < i ==> IsSpace(s[k]))
            && (forall k :: i + |r| <= k < |s| ==> IsSpace(s[k]))
    ensures r == [] || (!IsSpace(r[0]) && !IsSpace(r[|r| - 1]))
    ensures IsWord(s) ==> r == s
  {
    var i := LeadingSpaces(s);
    var t := s[i..];
    var j := TrailingSpaces(t);
    assert t[..|t| - j] == s[i..i + |t| - j];
    t[..|t| - j]
  }

  /** Length of the leading run of non-whitespace characters. */
  function WordLength(s: string): (n: nat)
    ensures n <= |s|
    ensures forall i :: 0 <= i < n ==> !IsSpace(s[i])
    ensures n == |s| || IsSpace(s[n])
  {
    if |s| == 0 || IsSpace(s[0]) then 0 else 1 + WordLength(s[1..])
  }

  /** `match(/\S+/g)`: the maximal runs of non-whitespace characters, in
      order; none is empty or holds whitespace, and there are none exactly
      when the text is blank. */
  function Tokens(s: string): (ws: seq<string>)
    ensures forall i :: 0 <= i < |ws| ==> IsWord(ws[i])
    ensures ws == [] <==> IsBlank(s)
    decreases |s|
  {
    if |s| == 0 then []
    else if IsSpace(s[0]) then
      var ws := Tokens(s[1..]);
      assert IsBlank(s[1..]) ==> IsBlank(s) by {
        if IsBlank(s[1..]) {
          forall i | 0 <= i < |s| ensures IsSpace(s[i]) {
            if i > 0 { assert s[i] == s[1..][i - 1]; }
          }
        }
      }
      ws
    else
      var n := WordLength(s);
      [s[..n]] + Tokens(s[n..])
  }

  /** Gaps and words alternating: gap, word, gap, ..., word, gap. */
  function Interleave(gaps: seq<string>, ws: seq<string>): string
    requires |gaps| == |ws| + 1
    decreases |ws|
  {
    if |ws| == 0 then gaps[0] else gaps[0] + ws[0] + Interleave(gaps[1..], ws[1..])
  }

  lemma InterleavePrefix(s: string, c: string, t: string, gaps: seq<string>, ws: seq<string>)
    requires s == c + t && |gaps| == |ws| + 1 && Interleave(gaps, ws) == t
    ensures Interleave([c + gaps[0]] + gaps[1..], ws) == s
  {
    if |ws| > 0 {
      assert ([c + gaps[0]] + gaps[1..])[1..] == gaps[1..];
    }
  }


  /** The whitespace around and between the tokens of `s`: the first gap,
      then the gap after each token. */
  function Gaps(s: string): seq<string>
    decreases |s|
  {
    if |s| == 0 then [""]
    else if IsSpace(s[0]) then
      var g := Gaps(s[1..]);
      if |g| == 0 then [] else [[s[0]] + g[0]] + g[1..]
    else
      [""] + Gaps(s[WordLength(s)..])
  }

  predicate GapsFit(s: string, gaps: seq<string>) {
    && |gaps| == |Tokens(s)| + 1
    && (forall i :: 0 <= i < |gaps| ==> IsBlank(gaps[i]))
    && (forall i :: 0 < i < |gaps| - 1 ==> gaps[i] != [])
    && (|s| > 0 && IsSpace(s[0]) ==> gaps[0] != [])
  }

  /** `match(/\S+/g)` gives the maximal runs: the text is its gaps and its
      tokens interleaved, every gap is blank, and every gap between two
      tokens is non-empty. */
  lemma {:induction false} TokensAreMaximalRuns(s: string)
    ensures GapsFit(s, Gaps(s))
    ensures |Gaps(s)| == |Tokens(s)| + 1 && Interleave(Gaps(s), Tokens(s)) == s
    decreases |s|
  {
    if |s| == 0 {
    } else if IsSpace(s[0]) {
      TokensAreMaximalRuns(s[1..]);
      GapsSpace(s);
    } else {
      var n := WordLength(s);
      TokensAreMaximalRuns(s[n..]);
      GapsWord(s);
    }
  }

  lemma GapsSpace(s: string)
    requires |s| > 0 && IsSpace(s[0])
    requires GapsFit(s[1..], Gaps(s[1..]))
    requires Interleave(Gaps(s[1..]), Tokens(s[1..])) == s[1..]
    ensures GapsFit(s, Gaps(s)) && Interleave(Gaps(s), Tokens(s)) == s
  {
    GapsSpaceFit(s);
    GapsSpaceInterleave(s);
  }

  lemma GapsSpaceFit(s: string)
    requires |s| > 0 && IsSpace(s[0])
    requires GapsFit(s[1..], Gaps(s[1..]))
    ensures GapsFit(s, Gaps(s))
  {
    UnfoldSpace(s);
    WidenFirstGap(s[0], Gaps(s[1..]));
  }

  lemma GapsSpaceInterleave(s: string)
    requires |s| > 0 && IsSpace(s[0])
    requires |Gaps(s[1..])| == |Tokens(s[1..])| + 1
    requires Interleave(Gaps(s[1..]), Tokens(s[1..])) == s[1..]
    ensures |Gaps(s)| == |Tokens(s)| + 1 && Interleave(Gaps(s), Tokens(s)) == s
  {
    assert [s[0]] + s[1..] == s;
    UnfoldSpace(s);
    InterleavePrefix(s, [s[0]], s[1..], Gaps(s[1..]), Tokens(s[1..]));
  }

  lemma UnfoldSpace(s: string)
    requires |s| > 0 && IsSpace(s[0])
    ensures |Gaps(s[1..])| > 0 ==> Gaps(s) == [[s[0]] + Gaps(s[1..])[0]] + Gaps(s[1..])[1..]
    ensures Tokens(s) == Tokens(s[1..])
  {
  }

  /** Blank gaps stay blank, and inner gaps non-empty, when a whitespace
      character joins the first gap. */
  lemma WidenFirstGap(c: char, g: seq<string>)
    requires IsSpace(c) && |g| > 0
    requires forall i :: 0 <= i < |g| ==> IsBlank(g[i])
    requires forall i :: 0 < i < |g| - 1 ==> g[i] != []
    ensures var gaps := [[c] + g[0]] + g[1..];
            && |gaps| == |g| && gaps[0] != []
            && (forall i :: 0 <= i < |gaps| ==> IsBlank(gaps[i]))
            && (forall i :: 0 < i < |gaps| - 1 ==> gaps[i] != [])
  {
    var gaps := [[c] + g[0]] + g[1..];
    forall i | 0 <= i < |gaps| ensures IsBlank(gaps[i]) {
      if i == 0 {
        assert IsBlank(g[0]);
      } else {
        assert gaps[i] == g[i];
      }
    }
    forall i | 0 < i < |gaps| - 1 ensures gaps[i] != [] {
      assert gaps[i] == g[i];
    }
  }

  lemma GapsWord(s: string)
    requires |s| > 0 && !IsSpace(s[0])
    requires GapsFit(s[WordLength(s)..], Gaps(s[WordLength(s)..]))
    requires Interleave(Gaps(s[WordLength(s)..]), Tokens(s[WordLength(s)..])) == s[WordLength(s)..]
    ensures GapsFit(s, Gaps(s)) && Interleave(Gaps(s), Tokens(s)) == s
  {
    GapsWordFit(s);
    GapsWordInterleave(s);
  }

  lemma GapsWordFit(s: string)
    requires |s| > 0 && !IsSpace(s[0])
    requires GapsFit(s[WordLength(s)..], Gaps(s[WordLength(s)..]))
    ensures GapsFit(s, Gaps(s))
  {
    var t := s[WordLength(s)..];
    UnfoldWord(s);
    var g := Gaps(t);
    assert |Tokens(t)| > 0 ==> g[0] != [] by {
      if |Tokens(t)| > 0 { assert |t| > 0; }
    }
    EmptyFirstGap(g);
  }

  lemma GapsWordInterleave(s: string)
    requires |s| > 0 && !IsSpace(s[0])
    requires |Gaps(s[WordLength(s)..])| == |Tokens(s[WordLength(s)..])| + 1
    requires Interleave(Gaps(s[WordLength(s)..]), Tokens(s[WordLength(s)..])) == s[WordLength(s)..]
    ensures |Gaps(s)| == |Tokens(s)| + 1 && Interleave(Gaps(s), Tokens(s)) == s
  {
    var n := WordLength(s);
    assert s[..n] + s[n..] == s;
    UnfoldWord(s);
    InterleaveWord(s, s[..n], s[n..], Gaps(s[n..]), Tokens(s[n..]));
  }

  lemma UnfoldWord(s: string)
    requires |s| > 0 && !IsSpace(s[0])
    ensures var n := WordLength(s);
            Gaps(s) == [""] + Gaps(s[n..]) && Tokens(s) == [s[..n]] + Tokens(s[n..])
  {
  }

  /** Prepending an empty gap keeps every gap blank and makes the old
      first gap an inner one. */
  lemma EmptyFirstGap(g: seq<string>)
    requires |g| > 0
    requires forall i :: 0 <= i < |g| ==> IsBlank(g[i])
    requires forall i :: 0 < i < |g| - 1 ==> g[i] != []
    requires |g| > 1 ==> g[0] != []
    ensures var gaps := [""] + g;
            && (forall i :: 0 <= i < |gaps| ==> IsBlank(gaps[i]))
            && (forall i :: 0 < i < |gaps| - 1 ==> gaps[i] != [])
  {
    var gaps := [""] + g;
    forall i | 0 <= i < |gaps| ensures IsBlank(gaps[i]) {
      if i > 0 { assert gaps[i] == g[i - 1]; }
    }
    forall i | 0 < i < |gaps| - 1 ensures gaps[i] != [] {
      assert gaps[i] == g[i - 1];
    }
  }

  lemma InterleaveWord(s: string, w: string, t: string, g: seq<string>, ws: seq<string>)
    requires s == w + t && |g| == |ws| + 1 && Interleave(g, ws) == t
    ensures Interleave([""] + g, [w] + ws) == s
  {
    var gaps, words := [""] + g, [w] + ws;
    assert gaps[0] == "" && words[0] == w;
    assert gaps[1..] == g && words[1..] == ws;
    assert Interleave(gaps, words) == gaps[0] + words[0] + Interleave(g, ws);
    assert "" + w == w;
  }


  /** Words joined by single spaces. */
  function Unwords(ws: seq<string>): string
  {
    if |ws| == 0 then ""
    else if |ws| == 1 then ws[0]
    else ws[0] + " " + Unwords(ws[1..])
  }

  lemma {:induction false} WordLengthOfWord(w: string, t: string)
    requires IsWord(w)
    requires |t| == 0 || IsSpace(t[0])
    ensures WordLength(w + t) == |w|
    decreases |w|
  {
    if |w| == 1 {
      assert (w + t)[1..] == t;
    } else {
      assert (w + t)[1..] == w[1..] + t;
      WordLengthOfWord(w[1..], t);
    }
  }

  lemma TokensSkipLeadingSpace(s: string)
    ensures Tokens(" " + s) == Tokens(s)
  {
    assert (" " + s)[1..] == s;
  }

  /** Tokenizing undoes joining with single spaces. */
  lemma {:induction false} TokensOfUnwords(ws: seq<string>)
    requires forall i :: 0 <= i < |ws| ==> IsWord(ws[i])
    ensures Tokens(Unwords(ws)) == ws
    decreases |ws|
  {
    if |ws| == 1 {
      var w := ws[0];
      WordLengthOfWord(w, []);
      assert w + [] == w;
      assert w[..|w|] == w;
      assert w[|w|..] == [];
    } else if |ws| > 1 {
      var w := ws[0];
      var rest := Unwords(ws[1..]);
      var s := w + " " + rest;
      WordLengthOfWord(w, " " + rest);
      assert s == w + (" " + rest);
      assert s[..|w|] == w;
      assert s[|w|..] == " " + rest;
      TokensSkipLeadingSpace(rest);
      TokensOfUnwords(ws[1..]);
    }
  }

  lemma {:induction false} UnwordsChars(ws: seq<string>, c: char)
    requires c in Unwords(ws)
    ensures c == ' ' || exists i :: 0 <= i < |ws| && c in ws[i]
    decreases |ws|
  {
    if |ws| > 1 {
      if c !in ws[0] && c != ' ' {
        UnwordsChars(ws[1..], c);
        var i :| 0 <= i < |ws[1..]| && c in ws[1..][i];
        assert c in ws[i + 1];
      }
    }
  }
}
