/** The loop both line parsers share (src/assembler/Parser.ts:89-190 and
    src/assembler/parse.ts:69-147): each line in turn is skipped, pushes
    one statement, or returns its error at once, so the first bad line
    aborts the whole parse and no partial result escapes. */
module LineFold {
  import opened Results
  import opened Text

  /** What one source line contributes. */
  datatype LineOutcome<+S, +E> = Skip | Emit(statement: S) | Fail(error: E)

  /** The loop itself: `acc` holds the statements pushed so far. It only
      appends, at most one statement per line, and an error it returns is
      some line's own. */
  function Collect<S, E>(outcomes: seq<LineOutcome<S, E>>, acc: seq<S>): (r: Result<seq<S>, E>)
    ensures r.Ok? ==> acc <= r.value && |r.value| <= |acc| + |outcomes|
    ensures r.Err? ==> exists i :: 0 <= i < |outcomes| && outcomes[i] == Fail(r.error)
    decreases |outcomes|
  {
    if |outcomes| == 0 then Ok(acc)
    else
      match outcomes[0]
      case Skip => Collect(outcomes[1..], acc)
      case Emit(s) => Collect(outcomes[1..], acc + [s])
      case Fail(e) => Err(e)
  }

  /** The statements of the emitting lines, in line order. */
  function Emitted<S, E>(outcomes: seq<LineOutcome<S, E>>): seq<S>
  {
    if |outcomes| == 0 then []
    else if outcomes[0].Emit? then [outcomes[0].statement] + Emitted(outcomes[1..])
    else Emitted(outcomes[1..])
  }

  /** The index of the first failing line, or -1 when no line fails. */
  function FirstFailure<S, E>(outcomes: seq<LineOutcome<S, E>>): (k: int)
    ensures -1 <= k < |outcomes|
    ensures 0 <= k ==> outcomes[k].Fail?
    ensures forall j :: 0 <= j < |outcomes| && (k < 0 || j < k) ==> !outcomes[j].Fail?
  {
    if |outcomes| == 0 then -1
    else if outcomes[0].Fail? then 0
    else
      var k := FirstFailure(outcomes[1..]);
      if k < 0 then -1 else k + 1
  }

  lemma AppendAssociates<S>(acc: seq<S>, s: S, rest: seq<S>)
    ensures acc + [s] + rest == acc + ([s] + rest)
  {
  }

  /** The loop returns every emitted statement after those already pushed
      when no line fails, and otherwise exactly the first failing line's
      error. */
  lemma {:induction false} CollectChoosesFirstFailure<S, E>(outcomes: seq<LineOutcome<S, E>>, acc: seq<S>)
    ensures FirstFailure(outcomes) < 0 ==> Collect(outcomes, acc) == Ok(acc + Emitted(outcomes))
    ensures 0 <= FirstFailure(outcomes) ==>
              Collect(outcomes, acc) == Err(outcomes[FirstFailure(outcomes)].error)
    decreases |outcomes|
  {
    if |outcomes| == 0 {
      assert acc + [] == acc;
    } else {
      match outcomes[0]
      case Skip =>
        CollectChoosesFirstFailure(outcomes[1..], acc);
      case Emit(s) =>
        CollectChoosesFirstFailure(outcomes[1..], acc + [s]);
        AppendAssociates(acc, s, Emitted(outcomes[1..]));
      case Fail(e) =>
    }
  }

  /** When every line emits, nothing fails and the statements come back in
      line order. */
  lemma {:induction false} AllEmitted<S, E>(outcomes: seq<LineOutcome<S, E>>, statements: seq<S>)
    requires |outcomes| == |statements|
    requires forall i :: 0 <= i < |outcomes| ==> outcomes[i] == Emit(statements[i])
    ensures FirstFailure(outcomes) < 0
    ensures Emitted(outcomes) == statements
    decreases |outcomes|
  {
    if |outcomes| > 0 {
      AllEmitted(outcomes[1..], statements[1..]);
      assert statements == [statements[0]] + statements[1..];
    }
  }

  /** When every line emits, the loop returns every statement, in order. */
  lemma CollectAllEmitted<S, E>(outcomes: seq<LineOutcome<S, E>>, statements: seq<S>)
    requires |outcomes| == |statements|
    requires forall i :: 0 <= i < |outcomes| ==> outcomes[i] == Emit(statements[i])
    ensures Collect(outcomes, []) == Ok(statements)
  {
    AllEmitted(outcomes, statements);
    CollectChoosesFirstFailure(outcomes, []);
    assert [] + statements == statements;
  }

  /** How many elements satisfy `p`. */
  function CountIf<T>(xs: seq<T>, p: T -> bool): nat
  {
    if |xs| == 0 then 0 else (if p(xs[0]) then 1 else 0) + CountIf(xs[1..], p)
  }

  /** Two sequences that agree position by position on their predicates
      have equal counts. */
  lemma {:induction false} CountIfAgree<A, B>(xs: seq<A>, p: A -> bool, ys: seq<B>, q: B -> bool)
    requires |xs| == |ys|
    requires forall i :: 0 <= i < |xs| ==> (p(xs[i]) <==> q(ys[i]))
    ensures CountIf(xs, p) == CountIf(ys, q)
    decreases |xs|
  {
    if |xs| > 0 {
      CountIfAgree(xs[1..], p, ys[1..], q);
    }
  }

  /** Without a failure, every line that is not skipped emits exactly one
      statement. */
  lemma {:induction false} EmittedCount<S, E>(outcomes: seq<LineOutcome<S, E>>)
    requires FirstFailure(outcomes) < 0
    ensures |Emitted(outcomes)| == |outcomes| - CountIf(outcomes, (o: LineOutcome<S, E>) => o.Skip?)
    decreases |outcomes|
  {
    if |outcomes| > 0 {
      EmittedCount(outcomes[1..]);
    }
  }

  /** Every emitted statement satisfies what every emitting line's
      statement satisfies. */
  lemma {:induction false} EmittedSatisfy<S, E>(outcomes: seq<LineOutcome<S, E>>, p: S -> bool)
    requires forall i :: 0 <= i < |outcomes| && outcomes[i].Emit? ==> p(outcomes[i].statement)
    ensures forall k :: 0 <= k < |Emitted(outcomes)| ==> p(Emitted(outcomes)[k])
    decreases |outcomes|
  {
    if |outcomes| > 0 {
      EmittedSatisfy(outcomes[1..], p);
    }
  }

  /** The loop fails exactly when some line fails, with the first failing
      line's error. */
  lemma CollectFailsAtFirst<S, E>(outcomes: seq<LineOutcome<S, E>>)
    ensures Collect(outcomes, []).Err? <==> exists i :: 0 <= i < |outcomes| && outcomes[i].Fail?
    ensures Collect(outcomes, []).Err? ==>
              var k := FirstFailure(outcomes);
              0 <= k && Collect(outcomes, []).error == outcomes[k].error
              && forall j :: 0 <= j < k ==> !outcomes[j].Fail?
  {
    CollectChoosesFirstFailure(outcomes, []);
  }

  /** A successful loop returns the emitted statements: one for every line
      not skipped. */
  lemma CollectSucceeds<S, E>(outcomes: seq<LineOutcome<S, E>>)
    requires Collect(outcomes, []).Ok?
    ensures Collect(outcomes, []).value == Emitted(outcomes)
    ensures |Emitted(outcomes)| == |outcomes| - CountIf(outcomes, (o: LineOutcome<S, E>) => o.Skip?)
  {
    CollectChoosesFirstFailure(outcomes, []);
    assert [] + Emitted(outcomes) == Emitted(outcomes);
    EmittedCount(outcomes);
  }

  /** How many of the lines are blank. */
  function BlankLines(lines: seq<string>): nat
  {
    CountIf(lines, (line: string) => IsBlank(line))
  }

  /** Emitted statements keep the order of their lines: when each emitting
      line's statement records the line's position (from `first`), the
      recorded positions of the result are in range and strictly
      increasing. */
  lemma {:induction false} EmittedInLineOrder<S, E>(outcomes: seq<LineOutcome<S, E>>, position: S -> int, first: int)
    requires forall i :: 0 <= i < |outcomes| && outcomes[i].Emit? ==> position(outcomes[i].statement) == first + i
    ensures forall k :: 0 <= k < |Emitted(outcomes)| ==>
              first <= position(Emitted(outcomes)[k]) < first + |outcomes|
    ensures forall a, b :: 0 <= a < b < |Emitted(outcomes)| ==>
              position(Emitted(outcomes)[a]) < position(Emitted(outcomes)[b])
    decreases |outcomes|
  {
    if |outcomes| > 0 {
      var rest := outcomes[1..];
      forall i | 0 <= i < |rest| && rest[i].Emit? ensures position(rest[i].statement) == first + 1 + i {
        assert rest[i] == outcomes[i + 1];
      }
      EmittedInLineOrder(rest, position, first + 1);
    }
  }
}
