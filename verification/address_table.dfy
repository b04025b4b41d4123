/** Pass 1 of the assembler (src/assembler/translate.ts:23-55): one walk
    over the statements of the older parser that binds every DEC/HEX label
    to the address it will occupy. */
module AddressTable {
  import opened Results
  import opened Errors
  import opened LegacyParser

  /** Where assembly starts when no ORG comes first. */
  const DEFAULT_ORIGIN: int := 2

  /** The pass-1 error: the label that was bound twice. */
  datatype Failure = Failure(value: string, cause: Cause)

  type Table = map<string, int>

  /** A statement that enters its label into the table: a DEC/HEX word
      with a non-empty label (the source tests the label's truthiness). */
  predicate Binds(st: Statement) {
    st.Word? && st.symbol.Some? && st.symbol.value != ""
  }

  function Name(st: Statement): string
    requires Binds(st)
  {
    st.symbol.value
  }

  /** The loop of `createAddressTable` from statement `k` on, with the
      table and the address counter built so far. It only adds bindings,
      each for the label of a DEC/HEX word it passes, and it fails only on
      such a label. */
  function Walk(statements: seq<Statement>, k: nat, table: Table, counter: int): (r: Result<Table, Failure>)
    requires k <= |statements|
    ensures r.Ok? ==> forall name :: name in table ==> name in r.value && r.value[name] == table[name]
    ensures r.Ok? ==> forall name :: name in r.value ==>
              name in table || exists j :: k <= j < |statements| && Binds(statements[j]) && Name(statements[j]) == name
    ensures r.Err? ==> r.error.cause == LabelAlreadyDefined
                       && exists j :: k <= j < |statements| && Binds(statements[j]) && Name(statements[j]) == r.error.value
    decreases |statements| - k
  {
    if k == |statements| then Ok(table)
    else
      match statements[k]
      case MemoryReference(_, _, _, _) => Walk(statements, k + 1, table, counter + 1)
      case NonMemoryReference(_, _) => Walk(statements, k + 1, table, counter + 1)
      case End => Ok(table)
      case Origin(numeral) => Walk(statements, k + 1, table, numeral)
      case Word(_, _, _) =>
        if Binds(statements[k]) then
          var name := Name(statements[k]);
          if name in table then Err(Failure(name, LabelAlreadyDefined))
          else Walk(statements, k + 1, table[name := counter], counter + 1)
        else Walk(statements, k + 1, table, counter + 1)
  }

  /** `createAddressTable`: every label in the table is a DEC/HEX word's,
      and the only error is a label bound twice. */
  function CreateAddressTable(statements: seq<Statement>): (r: Result<Table, Failure>)
    ensures r.Ok? ==> forall name :: name in r.value ==>
              exists j :: 0 <= j < |statements| && Binds(statements[j]) && Name(statements[j]) == name
    ensures r.Err? ==> r.error.cause == LabelAlreadyDefined
  {
    Walk(statements, 0, map[], DEFAULT_ORIGIN)
  }

  // Reference definitions, stated without the walk.

  /** The index of the first END, or the length when there is none. */
  function EndIndex(statements: seq<Statement>): (e: nat)
    ensures e <= |statements|
    ensures e < |statements| ==> statements[e].End?
    ensures forall i :: 0 <= i < e ==> !statements[i].End?
  {
    if |statements| == 0 then 0
    else if statements[0].End? then 0
    else 1 + EndIndex(statements[1..])
  }

  /** The index of the last ORG before `k`, or -1 when there is none. */
  function LastOrigin(statements: seq<Statement>, k: nat): (j: int)
    requires k <= |statements|
    ensures -1 <= j < k
    ensures 0 <= j ==> statements[j].Origin?
    ensures forall i :: j < i < k ==> !statements[i].Origin?
  {
    if k == 0 then -1
    else if statements[k - 1].Origin? then k - 1
    else LastOrigin(statements, k - 1)
  }

  /** The address of statement `k` before the first END: the last ORG's
      numeral plus the statements since it, or the default origin plus
      `k` when no ORG precedes. */
  function Address(statements: seq<Statement>, k: nat): int
    requires k <= |statements|
  {
    var j := LastOrigin(statements, k);
    if j < 0 then DEFAULT_ORIGIN + k else statements[j].numeral + (k - j - 1)
  }

  /** The labels bound by the first `n` statements. */
  function Labels(statements: seq<Statement>, n: nat): set<string>
    requires n <= |statements|
  {
    set i | 0 <= i < n && Binds(statements[i]) :: Name(statements[i])
  }

  /** Statement `j` binds a label an earlier statement already bound. */
  predicate Clash(statements: seq<Statement>, j: nat)
    requires j < |statements|
  {
    Binds(statements[j]) && exists i :: 0 <= i < j && Binds(statements[i]) && Name(statements[i]) == Name(statements[j])
  }

  /** The first `n` statements bind pairwise distinct labels. */
  predicate Distinct(statements: seq<Statement>, n: nat)
    requires n <= |statements|
  {
    forall i, j :: 0 <= i < j < n && Binds(statements[i]) && Binds(statements[j]) ==>
      Name(statements[i]) != Name(statements[j])
  }

  /** The table binds every label of the first `n` statements to that
      statement's address, and nothing else. */
  predicate Describes(statements: seq<Statement>, n: nat, table: Table)
    requires n <= |statements|
  {
    table.Keys == Labels(statements, n)
    && forall i :: 0 <= i < n && Binds(statements[i]) ==> Name(statements[i]) in table && table[Name(statements[i])] == Address(statements, i)
  }

  lemma AddressStep(statements: seq<Statement>, k: nat)
    requires k < |statements|
    ensures Address(statements, k + 1) == if statements[k].Origin? then statements[k].numeral else Address(statements, k) + 1
  {
  }

  lemma LabelsStep(statements: seq<Statement>, k: nat)
    requires k < |statements|
    ensures Labels(statements, k + 1) == Labels(statements, k) + if Binds(statements[k]) then {Name(statements[k])} else {}
  {
    var next := Labels(statements, k) + if Binds(statements[k]) then {Name(statements[k])} else {};
    forall name | name in next ensures name in Labels(statements, k + 1) {
      if name !in Labels(statements, k) {
        assert Name(statements[k]) == name;
      }
    }
  }

  lemma ClashIsKnownLabel(statements: seq<Statement>, k: nat)
    requires k < |statements|
    ensures Clash(statements, k) <==> Binds(statements[k]) && Name(statements[k]) in Labels(statements, k)
  {
    if Binds(statements[k]) && Name(statements[k]) in Labels(statements, k) {
      var i :| 0 <= i < k && Binds(statements[i]) && Name(statements[i]) == Name(statements[k]);
    }
  }

  lemma DistinctStep(statements: seq<Statement>, k: nat)
    requires k < |statements|
    ensures Distinct(statements, k + 1) <==> Distinct(statements, k) && !Clash(statements, k)
  {
  }

  /** The table and the counter after one statement that is neither END
      nor a redefinition. */
  function NextTable(st: Statement, table: Table, counter: int): Table {
    if Binds(st) then table[Name(st) := counter] else table
  }

  function NextCounter(st: Statement, counter: int): int {
    if st.Origin? then st.numeral else counter + 1
  }

  lemma WalkNext(statements: seq<Statement>, k: nat, table: Table, counter: int)
    requires k < |statements| && !statements[k].End?
    requires !(Binds(statements[k]) && Name(statements[k]) in table)
    ensures Walk(statements, k, table, counter)
            == Walk(statements, k + 1, NextTable(statements[k], table, counter), NextCounter(statements[k], counter))
  {
  }

  /** One step of the walk keeps the table describing the prefix. */
  lemma DescribesStep(statements: seq<Statement>, k: nat, table: Table)
    requires k < |statements|
    requires Describes(statements, k, table) && !Clash(statements, k)
    ensures Describes(statements, k + 1, NextTable(statements[k], table, Address(statements, k)))
  {
    LabelsStep(statements, k);
    ClashIsKnownLabel(statements, k);
  }

  /** At a redefinition the walk stops with the label. */
  lemma WalkAtClash(statements: seq<Statement>, k: nat, table: Table, counter: int)
    requires k < |statements|
    requires Describes(statements, k, table) && Clash(statements, k)
    ensures Walk(statements, k, table, counter) == Err(Failure(Name(statements[k]), LabelAlreadyDefined))
  {
    ClashIsKnownLabel(statements, k);
  }

  /** A clash before `e` breaks distinctness up to `e`. */
  lemma ClashBreaksDistinct(statements: seq<Statement>, k: nat, e: nat)
    requires k < e <= |statements| && Clash(statements, k)
    ensures !Distinct(statements, e)
  {
  }

  /** The walk from any point before the first END, started with the table
      and counter the prefix calls for, finishes as the reference
      definitions say. */
  lemma {:induction false} WalkMeaning(statements: seq<Statement>, k: nat, table: Table, counter: int)
    requires k <= EndIndex(statements)
    requires counter == Address(statements, k)
    requires Describes(statements, k, table) && Distinct(statements, k)
    ensures var e := EndIndex(statements);
            Walk(statements, k, table, counter).Ok? <==> Distinct(statements, e)
    ensures var e := EndIndex(statements);
            Walk(statements, k, table, counter).Ok? ==> Describes(statements, e, Walk(statements, k, table, counter).value)
    ensures var r := Walk(statements, k, table, counter);
            r.Err? ==> exists j :: k <= j < EndIndex(statements) && Distinct(statements, j) && Clash(statements, j)
                                  && r.error == Failure(Name(statements[j]), LabelAlreadyDefined)
    decreases |statements| - k
  {
    var e := EndIndex(statements);
    if k == e {
      if k < |statements| {
        assert statements[k].End?;
      }
    } else if Clash(statements, k) {
      WalkAtClash(statements, k, table, counter);
      ClashBreaksDistinct(statements, k, e);
    } else {
      var st := statements[k];
      DistinctStep(statements, k);
      AddressStep(statements, k);
      ClashIsKnownLabel(statements, k);
      DescribesStep(statements, k, table);
      WalkNext(statements, k, table, counter);
      WalkMeaning(statements, k + 1, NextTable(st, table, counter), NextCounter(st, counter));
    }
  }

  lemma DistinctPrefix(statements: seq<Statement>, m: nat, n: nat)
    requires m <= n <= |statements|
    ensures Distinct(statements, n) ==> Distinct(statements, m)
  {
  }

  /** Pass 1 succeeds exactly when the labels bound before the first END
      are pairwise distinct. Its table then holds exactly those labels,
      each at its statement's address; instruction labels and everything
      after END are never entered. On failure it reports the first label
      bound a second time. */
  lemma CreateAddressTableMeaning(statements: seq<Statement>)
    ensures var e := EndIndex(statements);
            CreateAddressTable(statements).Ok? <==> Distinct(statements, e)
    ensures var e := EndIndex(statements); var r := CreateAddressTable(statements);
            r.Ok? ==> r.value.Keys == Labels(statements, e)
                      && forall i :: 0 <= i < e && Binds(statements[i]) ==> r.value[Name(statements[i])] == Address(statements, i)
    ensures var r := CreateAddressTable(statements);
            r.Err? ==> exists j :: 0 <= j < EndIndex(statements) && Distinct(statements, j) && Clash(statements, j)
                                  && r.error == Failure(Name(statements[j]), LabelAlreadyDefined)
  {
    WalkMeaning(statements, 0, map[], DEFAULT_ORIGIN);
  }

  /** Nothing after the first END reaches the table. */
  lemma {:induction false} IgnoresAfterEnd(statements: seq<Statement>, rest: seq<Statement>, k: nat, table: Table, counter: int)
    requires k <= |statements|
    ensures Walk(statements + [End] + rest, k, table, counter) == Walk(statements + [End], k, table, counter)
    decreases |statements| - k
  {
    var long := statements + [End] + rest;
    var short := statements + [End];
    assert long[k] == short[k];
    if k < |statements| && !long[k].End? && !(Binds(long[k]) && Name(long[k]) in table) {
      WalkNext(long, k, table, counter);
      WalkNext(short, k, table, counter);
      IgnoresAfterEnd(statements, rest, k + 1, NextTable(long[k], table, counter), NextCounter(long[k], counter));
    }
  }

  lemma EndStops(statements: seq<Statement>, rest: seq<Statement>)
    ensures CreateAddressTable(statements + [End] + rest) == CreateAddressTable(statements + [End])
  {
    IgnoresAfterEnd(statements, rest, 0, map[], DEFAULT_ORIGIN);
  }

  /** ORG may move the counter backwards and onto addresses already
      used: two words placed at the same address are both accepted. */
  lemma OriginUnchecked()
    ensures CreateAddressTable([Origin(10), Word(DEC, 1, Some("A")), Origin(10), Word(HEX, 2, Some("B"))])
            == Ok(map["A" := 10, "B" := 10])
  {
  }

  /** Any label bound twice before the first END makes pass 1 fail,
      whatever ORGs lie between the two bindings and whatever addresses
      they would get; the label reported is bound twice no later than the
      given one. */
  lemma RedefinitionReported(statements: seq<Statement>, j: nat)
    requires j < EndIndex(statements) && Clash(statements, j)
    ensures var r := CreateAddressTable(statements);
            r.Err? && r.error.cause == LabelAlreadyDefined
            && exists i :: 0 <= i <= j && Clash(statements, i) && r.error.value == Name(statements[i])
  {
    CreateAddressTableMeaning(statements);
    ClashBreaksDistinct(statements, j, EndIndex(statements));
    var r := CreateAddressTable(statements);
    var i :| 0 <= i < EndIndex(statements) && Distinct(statements, i) && Clash(statements, i)
             && r.error == Failure(Name(statements[i]), LabelAlreadyDefined);
  }

  /** Example: the second `A` is reported although an ORG between the two
      would place it elsewhere. */
  lemma RedefinitionExample()
    ensures CreateAddressTable([Word(DEC, 1, Some("A")), Origin(100), Word(DEC, 2, Some("A"))])
            == Err(Failure("A", LabelAlreadyDefined))
  {
  }

  /** An instruction before the first END takes up one address and binds
      nothing, even when it carries a label: that label reaches the table
      only through some DEC/HEX word. */
  lemma InstructionsAdvance(statements: seq<Statement>, k: nat)
    requires k < EndIndex(statements)
    requires statements[k].MemoryReference? || statements[k].NonMemoryReference?
    ensures Address(statements, k + 1) == Address(statements, k) + 1
    ensures Labels(statements, k + 1) == Labels(statements, k)
    ensures var r := CreateAddressTable(statements);
            r.Ok? && statements[k].symbol.Some? && statements[k].symbol.value in r.value ==>
              exists i :: 0 <= i < EndIndex(statements) && Binds(statements[i]) && Name(statements[i]) == statements[k].symbol.value
  {
    AddressStep(statements, k);
    LabelsStep(statements, k);
    CreateAddressTableMeaning(statements);
  }

  /** Example: two instructions move the counter from 2 to 4 and bind
      neither `Y` nor anything else. */
  lemma InstructionsExample()
    ensures CreateAddressTable([MemoryReference("LDA", "X", false, Some("Y")), NonMemoryReference("HLT", None), Word(DEC, 5, Some("X"))])
            == Ok(map["X" := 4])
  {
  }
}
