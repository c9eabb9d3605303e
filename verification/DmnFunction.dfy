/** The generated function as a whole: when it builds, and what it returns. */
module DmnFunction {
  import opened Wrappers
  import opened GoStrings
  import opened GoExpr
  import opened GoReturn
  import opened GoCondition
  import opened DmnTable
  import opened DmnCompiler
  import opened DmnCorrect
  import opened DmnImports

  /** In front of a block the text reads as the expression. */
  ghost predicate ReadsAs(condition: seq<Token>, expr: Expr) {
    forall after | StartsWith(after, LBrace) :: ParseOr(condition + after) == Some(Parsed(expr, after))
  }

  lemma IfStep(ts: seq<Token>, c: Parsed, p: ParsedOuts, body: Body)
    requires StartsWith(ts, KwIf) && ParseOr(ts[1..]) == Some(c) && StartsWith(c.rest, LBrace)
    requires ParseReturn(c.rest[1..]) == Some(p) && ParseBody(p.rest) == Some(body)
    ensures ParseBody(ts) == Some(If(c.expr, p.outs, body))
  {
  }

  lemma IfSplits(condition: seq<Token>, outs: seq<string>, rest: seq<Token>)
    ensures var block := [KwReturn] + OutTokens(outs) + [RBrace] + rest;
            var ts := IfTokens(condition, outs) + rest;
            ts[0] == KwIf && ts[1..] == condition + ([LBrace] + block) && ([LBrace] + block)[1..] == block
  {
  }

  /** An `if` whose condition parses, in front of a body. */
  lemma IfParses(condition: seq<Token>, expr: Expr, outs: seq<string>, rest: seq<Token>, body: Body)
    requires ReadsAs(condition, expr) && Results(outs).Some? && ParseBody(rest) == Some(body)
    ensures ParseBody(IfTokens(condition, outs) + rest) == Some(If(expr, Results(outs).value, body))
  {
    IfSplits(condition, outs, rest);
    ReturnParses(outs, rest);
    var after := [LBrace] + ([KwReturn] + OutTokens(outs) + [RBrace] + rest);
    assert ParseOr(condition + after) == Some(Parsed(expr, after));
    IfStep(IfTokens(condition, outs) + rest, Parsed(expr, after), ParsedOuts(Results(outs).value, rest), body);
  }

  /** The entries of the first rule whose condition is true. */
  ghost function Pick(truths: seq<bool>, rules: seq<Rule>, defaults: seq<string>): seq<string>
    requires |truths| == |rules|
  {
    if rules == [] then defaults
    else if truths[0] then rules[0].outputEntries
    else Pick(truths[1..], rules[1..], defaults)
  }

  lemma DefaultRuns(defaults: seq<string>, inputs: Inputs)
    requires Results(defaults).Some?
    ensures var b := ParseBody([KwReturn] + OutTokens(defaults) + [RBrace]);
            b.Some? && Run(b.value, inputs) == Results(defaults)
  {
    var end := [KwReturn] + OutTokens(defaults) + [RBrace];
    ReturnParses(defaults, []);
    assert end + [] == end;
  }

  lemma {:induction false} ChainRuns(conditions: seq<seq<Token>>, exprs: seq<Expr>, truths: seq<bool>, rules: seq<Rule>,
                                     defaults: seq<string>, inputs: Inputs)
    requires |conditions| == |exprs| == |truths| == |rules|
    requires forall r | 0 <= r < |rules| ::
        ReadsAs(conditions[r], exprs[r]) && Eval(exprs[r], inputs) == Some(truths[r])
    requires Results(defaults).Some? && forall r | 0 <= r < |rules| :: Results(rules[r].outputEntries).Some?
    ensures var text := Chain(conditions, rules) + ([KwReturn] + OutTokens(defaults) + [RBrace]);
            ParseBody(text).Some? && Run(ParseBody(text).value, inputs) == Results(Pick(truths, rules, defaults))
    decreases |rules|
  {
    var end := [KwReturn] + OutTokens(defaults) + [RBrace];
    if rules == [] {
      assert Chain(conditions, rules) + end == end;
      DefaultRuns(defaults, inputs);
    } else {
      ChainRuns(conditions[1..], exprs[1..], truths[1..], rules[1..], defaults, inputs);
      var rest := Chain(conditions[1..], rules[1..]) + end;
      IfParses(conditions[0], exprs[0], rules[0].outputEntries, rest, ParseBody(rest).value);
      assert Chain(conditions, rules) + end == IfTokens(conditions[0], rules[0].outputEntries) + rest;
    }
  }

  lemma RowConditionParses(order: seq<string>, m: map<string, string>, row: Row, columns: seq<Column>, inputs: Inputs)
    returns (expr: Expr, truth: bool)
    requires RowWf(row, columns) && ColumnsWf(columns) && WellTyped(columns, inputs)
    requires MapsRow(m, row, columns) && IsOrder(order, m.Keys)
    ensures KeysOf(order, m) && ReadsAs(JoinTokens(Conditions(order, m), AndAnd), expr)
    ensures Eval(expr, inputs) == Some(truth)
    ensures RowExact(row) ==> truth == RowHolds(row, columns, inputs)
  {
    RowReads(order, m, row, columns, inputs, []);
    var gs := GlueAll(Parts(order, m, row, columns));
    expr, truth := GroupsExpr(gs), GroupsTrue(gs, inputs);
    forall after | StartsWith(after, LBrace)
      ensures ParseOr(JoinTokens(Conditions(order, m), AndAnd) + after) == Some(Parsed(expr, after))
    {
      RowReads(order, m, row, columns, inputs, after);
    }
    if RowExact(row) {
      ExactMeans(order, m, row, columns, inputs);
    }
  }

  lemma ConditionParses(condition: seq<Token>, order: seq<string>, row: Row, columns: seq<Column>, inputs: Inputs)
    returns (expr: Expr, truth: bool)
    requires RowWf(row, columns) && ColumnsWf(columns) && WellTyped(columns, inputs)
    requires IsCondition(condition, RowMap(row, columns), order)
    ensures ReadsAs(condition, expr) && Eval(expr, inputs) == Some(truth)
    ensures RowExact(row) ==> truth == RowHolds(row, columns, inputs)
  {
    RowMapMaps(row, columns);
    expr, truth := RowConditionParses(order, RowMap(row, columns), row, columns, inputs);
  }

  /** The emitted condition of a row is read as an expression with this truth value. */
  ghost predicate ReadRow(condition: seq<Token>, expr: Expr, truth: bool, row: Row, columns: seq<Column>,
                          inputs: Inputs)
    requires WellTyped(columns, inputs)
  {
    && RowWf(row, columns) && ReadsAs(condition, expr) && Eval(expr, inputs) == Some(truth)
    && (RowExact(row) ==> truth == RowHolds(row, columns, inputs))
  }

  lemma RowRead(condition: seq<Token>, order: seq<string>, row: Row, columns: seq<Column>, inputs: Inputs)
    returns (expr: Expr, truth: bool)
    requires RowWf(row, columns) && ColumnsWf(columns) && WellTyped(columns, inputs)
    requires IsCondition(condition, RowMap(row, columns), order)
    ensures ReadRow(condition, expr, truth, row, columns, inputs)
  {
    expr, truth := ConditionParses(condition, order, row, columns, inputs);
  }

  ghost predicate ConditionOf(condition: seq<Token>, order: seq<string>, row: Row, columns: seq<Column>) {
    RowWf(row, columns) && IsCondition(condition, RowMap(row, columns), order)
  }

  /** The conditions are read, each as the expression beside it. */
  ghost predicate AllRead(conditions: seq<seq<Token>>, exprs: seq<Expr>, truths: seq<bool>, rows: seq<Row>,
                          columns: seq<Column>, inputs: Inputs)
    requires WellTyped(columns, inputs)
  {
    && |conditions| == |exprs| == |truths| == |rows|
    && forall r | 0 <= r < |rows| :: ReadRow(conditions[r], exprs[r], truths[r], rows[r], columns, inputs)
  }

  type Choice = (nat, Expr, bool) -> bool

  ghost predicate CanChoose(p: Choice, r: nat) {
    exists expr, truth :: p(r, expr, truth)
  }

  lemma ChooseEach(p: Choice, n: nat) returns (exprs: seq<Expr>, truths: seq<bool>)
    requires forall r | 0 <= r < n :: CanChoose(p, r)
    ensures |exprs| == |truths| == n && forall r | 0 <= r < n :: p(r, exprs[r], truths[r])
  {
    exprs, truths := [], [];
    for k := 0 to n
      invariant |exprs| == |truths| == k && forall r | 0 <= r < k :: p(r, exprs[r], truths[r])
    {
      assert CanChoose(p, k);
      var expr, truth :| p(k, expr, truth);
      exprs, truths := exprs + [expr], truths + [truth];
    }
  }

  ghost predicate Reads(condition: seq<Token>, row: Row, columns: seq<Column>, inputs: Inputs)
    requires WellTyped(columns, inputs)
  {
    exists expr, truth :: ReadRow(condition, expr, truth, row, columns, inputs)
  }

  lemma ConditionReads(condition: seq<Token>, order: seq<string>, row: Row, columns: seq<Column>, inputs: Inputs)
    requires ColumnsWf(columns) && WellTyped(columns, inputs) && ConditionOf(condition, order, row, columns)
    ensures Reads(condition, row, columns, inputs)
  {
    var expr, truth := RowRead(condition, order, row, columns, inputs);
  }

  lemma ConditionsParse(conditions: seq<seq<Token>>, orders: seq<seq<string>>, rows: seq<Row>,
                        columns: seq<Column>, inputs: Inputs)
    returns (exprs: seq<Expr>, truths: seq<bool>)
    requires ColumnsWf(columns) && WellTyped(columns, inputs) && |conditions| == |orders| == |rows|
    requires forall r | 0 <= r < |rows| :: ConditionOf(conditions[r], orders[r], rows[r], columns)
    ensures AllRead(conditions, exprs, truths, rows, columns, inputs)
  {
    ghost var p: Choice := (r: nat, expr, truth) =>
      r < |rows| && ReadRow(conditions[r], expr, truth, rows[r], columns, inputs);
    forall r | 0 <= r < |rows| ensures CanChoose(p, r) {
      ConditionReads(conditions[r], orders[r], rows[r], columns, inputs);
      var expr, truth :| ReadRow(conditions[r], expr, truth, rows[r], columns, inputs);
      assert p(r, expr, truth);
    }
    exprs, truths := ChooseEach(p, |rows|);
    assert forall r | 0 <= r < |rows| :: p(r, exprs[r], truths[r]);
  }

  lemma {:induction false} PickDecides(truths: seq<bool>, rows: seq<Row>, columns: seq<Column>, defaults: seq<string>,
                                       inputs: Inputs)
    requires forall r | 0 <= r < |rows| :: RowWf(rows[r], columns) && CellsWf(rows[r], columns)
    requires WellTyped(columns, inputs)
    requires |truths| == |rows| && forall r | 0 <= r < |rows| :: truths[r] == RowHolds(rows[r], columns, inputs)
    ensures Pick(truths, FileRows(rows, columns), defaults) == Decide(rows, columns, defaults, inputs)
    decreases |rows|
  {
    if rows != [] {
      PickDecides(truths[1..], rows[1..], columns, defaults, inputs);
      assert FileRows(rows, columns)[1..] == FileRows(rows[1..], columns);
    }
  }

  lemma {:induction false} DefaultsAgree(outputs: seq<OutColumn>)
    ensures DefaultReturn(FileOutputs(outputs)) == Defaults(outputs)
  {
    if outputs != [] {
      DefaultsAgree(outputs[1..]);
      assert FileOutputs(outputs)[1..] == FileOutputs(outputs[1..]);
    }
  }

  /** What the text of a function body returns; None if it is not Go or panics. */
  function RunText(body: seq<Token>, inputs: Inputs): Option<seq<Returned>> {
    match ParseBody(body)
    case None => None
    case Some(b) => Run(b, inputs)
  }

  lemma {:induction false} PickReads(truths: seq<bool>, rules: seq<Rule>, defaults: seq<string>)
    requires |truths| == |rules|
    requires Results(defaults).Some? && forall r | 0 <= r < |rules| :: Results(rules[r].outputEntries).Some?
    ensures Results(Pick(truths, rules, defaults)).Some?
    decreases |rules|
  {
    if rules != [] && !truths[0] {
      PickReads(truths[1..], rules[1..], defaults);
    }
  }

  lemma RulesRead(t: Table)
    requires TableWf(t)
    ensures forall r | 0 <= r < |t.rows| :: Results(File(t).rules[r].outputEntries).Some?
  {
    forall r | 0 <= r < |t.rows| ensures Results(File(t).rules[r].outputEntries).Some? {
      assert File(t).rules[r] == FileRow(t.rows[r], t.columns);
      assert OutsWf(t.rows[r], t.outputs);
    }
  }

  lemma TableRuns(t: Table, conditions: seq<seq<Token>>, orders: seq<seq<string>>, inputs: Inputs)
    returns (truths: seq<bool>)
    requires TableWf(t) && WellTyped(t.columns, inputs) && AreConditions(conditions, File(t), orders)
    ensures |truths| == |t.rows|
    ensures RunText(BodyTokens(File(t), conditions), inputs)
         == Results(Pick(truths, FileRows(t.rows, t.columns), Defaults(t.outputs)))
    ensures RunText(BodyTokens(File(t), conditions), inputs).Some?
    ensures forall r | 0 <= r < |t.rows| :: RowExact(t.rows[r]) ==> truths[r] == RowHolds(t.rows[r], t.columns, inputs)
  {
    forall r | 0 <= r < |t.rows| ensures ConditionOf(conditions[r], orders[r], t.rows[r], t.columns) {
      assert File(t).rules[r] == FileRow(t.rows[r], t.columns);
    }
    var exprs, ts := ConditionsParse(conditions, orders, t.rows, t.columns, inputs);
    truths := ts;
    forall r | 0 <= r < |t.rows|
      ensures ReadsAs(conditions[r], exprs[r]) && Eval(exprs[r], inputs) == Some(truths[r])
      ensures RowExact(t.rows[r]) ==> truths[r] == RowHolds(t.rows[r], t.columns, inputs)
    {
      assert ReadRow(conditions[r], exprs[r], truths[r], t.rows[r], t.columns, inputs);
    }
    DefaultsAgree(t.outputs);
    DefaultsFit(t.outputs);
    RulesRead(t);
    PickReads(truths, File(t).rules, Defaults(t.outputs));
    ChainRuns(conditions, exprs, truths, File(t).rules, Defaults(t.outputs), inputs);
  }

  // ------------------------------------------------------------- what builds

  /** In front of a block the text reads as some expression. */
  ghost predicate Readable(condition: seq<Token>) {
    exists expr :: ReadsAs(condition, expr)
  }

  lemma BlockIsNoCondition(rest: seq<Token>)
    ensures ParseOr([LBrace] + rest).None?
  {
    assert ParsePrimary([LBrace] + rest).None?;
    assert ParseAnd([LBrace] + rest).None?;
  }

  lemma ReadableNonEmpty(condition: seq<Token>)
    requires Readable(condition)
    ensures condition != []
  {
    var expr :| ReadsAs(condition, expr);
    BlockIsNoCondition([]);
    assert [] + ([LBrace] + []) == [LBrace] + [];
    assert ParseOr(condition + ([LBrace] + [])) == Some(Parsed(expr, [LBrace] + []));
  }

  lemma EmptyIfFails(outs: seq<string>, rest: seq<Token>)
    ensures ParseBody(IfTokens([], outs) + rest).None?
  {
    IfSplits([], outs, rest);
    var block := [KwReturn] + OutTokens(outs) + [RBrace] + rest;
    assert [] + ([LBrace] + block) == [LBrace] + block;
    BlockIsNoCondition(block);
  }

  lemma IfFails(condition: seq<Token>, outs: seq<string>, rest: seq<Token>)
    requires Readable(condition) && (Results(outs).None? || ParseBody(rest).None?)
    ensures ParseBody(IfTokens(condition, outs) + rest).None?
  {
    var expr :| ReadsAs(condition, expr);
    IfSplits(condition, outs, rest);
    ReturnParses(outs, rest);
    var after := [LBrace] + ([KwReturn] + OutTokens(outs) + [RBrace] + rest);
    assert ParseOr(condition + after) == Some(Parsed(expr, after));
  }

  lemma DefaultBuilds(defaults: seq<string>, results: seq<GoType>)
    ensures var b := ParseBody([KwReturn] + OutTokens(defaults) + [RBrace]);
            && (b.Some? <==> Results(defaults).Some?)
            && (b.Some? ==> (Returns(b.value, results) <==> TextsFit(defaults, results)))
  {
    var end := [KwReturn] + OutTokens(defaults) + [RBrace];
    ReturnParses(defaults, []);
    assert end + [] == end;
  }

  predicate AllNonEmpty(conditions: seq<seq<Token>>) {
    forall r | 0 <= r < |conditions| :: conditions[r] != []
  }

  predicate RulesFit(rules: seq<Rule>, results: seq<GoType>) {
    forall r | 0 <= r < |rules| :: TextsFit(rules[r].outputEntries, results)
  }

  lemma NonEmptyTail(conditions: seq<seq<Token>>)
    requires conditions != []
    ensures AllNonEmpty(conditions) <==> conditions[0] != [] && AllNonEmpty(conditions[1..])
  {
    assert conditions == [conditions[0]] + conditions[1..];
  }

  lemma RulesFitTail(rules: seq<Rule>, results: seq<GoType>)
    requires rules != []
    ensures RulesFit(rules, results) <==> TextsFit(rules[0].outputEntries, results) && RulesFit(rules[1..], results)
  {
    assert rules == [rules[0]] + rules[1..];
  }

  /** Each rule's entries are the results of some `return`. */
  predicate AllReturn(rules: seq<Rule>) {
    forall r | 0 <= r < |rules| :: Results(rules[r].outputEntries).Some?
  }

  lemma AllReturnTail(rules: seq<Rule>)
    requires rules != []
    ensures AllReturn(rules) <==> Results(rules[0].outputEntries).Some? && AllReturn(rules[1..])
  {
    assert rules == [rules[0]] + rules[1..];
  }

  /** A chain in which every condition is readable or empty is a function body exactly if
      none is empty, wherever the empty one stands, and all entries are results; the
      results are then those of the rules and the defaults. */
  lemma {:induction false} ChainBuilds(conditions: seq<seq<Token>>, rules: seq<Rule>, defaults: seq<string>,
                                       results: seq<GoType>)
    requires |conditions| == |rules| && forall r | 0 <= r < |rules| :: conditions[r] == [] || Readable(conditions[r])
    ensures var b := ParseBody(Chain(conditions, rules) + ([KwReturn] + OutTokens(defaults) + [RBrace]));
            && (b.Some? <==> AllNonEmpty(conditions) && AllReturn(rules) && Results(defaults).Some?)
            && (b.Some? ==> (Returns(b.value, results) <==> TextsFit(defaults, results) && RulesFit(rules, results)))
    decreases |rules|
  {
    var end := [KwReturn] + OutTokens(defaults) + [RBrace];
    if rules == [] {
      assert Chain(conditions, rules) + end == end;
      DefaultBuilds(defaults, results);
    } else {
      ChainBuilds(conditions[1..], rules[1..], defaults, results);
      ChainStep(conditions, rules, defaults, results);
      NonEmptyTail(conditions);
      AllReturnTail(rules);
      RulesFitTail(rules, results);
    }
  }

  lemma ChainStep(conditions: seq<seq<Token>>, rules: seq<Rule>, defaults: seq<string>, results: seq<GoType>)
    requires |conditions| == |rules| > 0 && (conditions[0] == [] || Readable(conditions[0]))
    ensures var end := [KwReturn] + OutTokens(defaults) + [RBrace];
            var b, rest := ParseBody(Chain(conditions, rules) + end),
                ParseBody(Chain(conditions[1..], rules[1..]) + end);
            && (b.Some? <==> conditions[0] != [] && Results(rules[0].outputEntries).Some? && rest.Some?)
            && (b.Some? ==> (Returns(b.value, results) <==>
                  TextsFit(rules[0].outputEntries, results) && Returns(rest.value, results)))
  {
    var end := [KwReturn] + OutTokens(defaults) + [RBrace];
    var first, rest := rules[0].outputEntries, Chain(conditions[1..], rules[1..]) + end;
    assert Chain(conditions, rules) + end == IfTokens(conditions[0], first) + rest;
    BlockStep(conditions[0], first, rest, results);
  }

  lemma BlockStep(condition: seq<Token>, first: seq<string>, rest: seq<Token>, results: seq<GoType>)
    requires condition == [] || Readable(condition)
    ensures var b, r := ParseBody(IfTokens(condition, first) + rest), ParseBody(rest);
            && (b.Some? <==> condition != [] && Results(first).Some? && r.Some?)
            && (b.Some? ==> (Returns(b.value, results) <==> TextsFit(first, results) && Returns(r.value, results)))
  {
    if condition == [] {
      EmptyIfFails(first, rest);
    } else if Results(first).None? || ParseBody(rest).None? {
      IfFails(condition, first, rest);
    } else {
      var expr :| ReadsAs(condition, expr);
      IfParses(condition, expr, first, rest, ParseBody(rest).value);
    }
  }

  /** Inputs of the right types. */
  ghost function SomeInputs(columns: seq<Column>): (inputs: Inputs)
    requires ColumnsWf(columns)
    ensures WellTyped(columns, inputs)
  {
    Assigned(columns, seq(|columns|, i requires 0 <= i < |columns| => ZeroOf(ColumnType(columns[i].typeRef))))
  }

  /** The condition of a row is readable, or the row is blank and the condition empty. */
  lemma RowCondition(condition: seq<Token>, order: seq<string>, row: Row, columns: seq<Column>)
    requires CellsWf(row, columns) && ColumnsWf(columns) && IsCondition(condition, RowMap(row, columns), order)
    ensures NonBlank(row) ==> Readable(condition) && condition != []
    ensures !NonBlank(row) ==> condition == []
  {
    if NonBlank(row) {
      var expr, truth := ConditionParses(condition, order, row, columns, SomeInputs(columns));
      ReadableNonEmpty(condition);
    } else {
      BlankCondition(condition, order, row, columns);
    }
  }

  lemma BlankCondition(condition: seq<Token>, order: seq<string>, row: Row, columns: seq<Column>)
    requires CellsWf(row, columns) && ColumnsWf(columns) && IsCondition(condition, RowMap(row, columns), order)
    requires !NonBlank(row)
    ensures condition == []
  {
    RowMapMaps(row, columns);
    BlankConditions(order, RowMap(row, columns), row, columns);
  }

  lemma BlankConditions(order: seq<string>, m: map<string, string>, row: Row, columns: seq<Column>)
    requires CellsWf(row, columns) && ColumnsWf(columns) && MapsRow(m, row, columns) && KeysOf(order, m)
    requires !NonBlank(row)
    ensures Conditions(order, m) == []
  {
    RowCompiles(order, m, row, columns);
    NoParts(Parts(order, m, row, columns));
  }

  lemma {:induction false} NoParts(parts: seq<seq<Group>>)
    requires forall i | 0 <= i < |parts| :: parts[i] == []
    ensures PartTokens(parts) == []
  {
    if parts != [] {
      NoParts(parts[1..]);
    }
  }

  lemma TypesAgree(outputs: seq<OutColumn>)
    ensures ResultTypes(FileOutputs(outputs)) == OutTypes(outputs)
  {
  }

  lemma DefaultsFit(outputs: seq<OutColumn>)
    ensures TextsFit(Defaults(outputs), OutTypes(outputs))
  {
    var o, texts := FileOutputs(outputs), Defaults(outputs);
    DefaultsAgree(outputs);
    DefaultAt(o);
    forall i | 0 <= i < |outputs| ensures Closed(texts[i]) && EntryFits(texts[i], OutType(outputs[i])) {
      DefaultReads(o[i]);
    }
    EntriesFitIff(texts, OutTypes(outputs));
  }

  /** The code of a table is a function body exactly if no row is blank and the entries
      of each are results; it returns results of the right number and types exactly if
      all rows have them. */
  lemma BodyBuilds(t: Table, code: seq<Token>)
    requires Supported(t) && IsCodeOf(code, File(t))
    ensures ParseBody(code).Some? <==>
            forall r | 0 <= r < |t.rows| :: NonBlank(t.rows[r]) && Results(t.rows[r].outs).Some?
    ensures ParseBody(code).Some? ==>
              (Returns(ParseBody(code).value, OutTypes(t.outputs)) <==>
               forall r | 0 <= r < |t.rows| :: OutsWf(t.rows[r], t.outputs))
  {
    var d := File(t);
    var conditions, orders :| IsCodeWith(code, d, conditions, orders);
    RowsRead(t, conditions, orders);
    DefaultsAgree(t.outputs);
    DefaultsFit(t.outputs);
    ChainBuilds(conditions, d.rules, Defaults(t.outputs), OutTypes(t.outputs));
  }

  lemma RowsRead(t: Table, conditions: seq<seq<Token>>, orders: seq<seq<string>>)
    requires Supported(t) && AreConditions(conditions, File(t), orders)
    ensures forall r | 0 <= r < |conditions| :: conditions[r] == [] || Readable(conditions[r])
    ensures AllNonEmpty(conditions) <==> forall r | 0 <= r < |t.rows| :: NonBlank(t.rows[r])
    ensures AllReturn(File(t).rules) <==> forall r | 0 <= r < |t.rows| :: Results(t.rows[r].outs).Some?
    ensures RulesFit(File(t).rules, OutTypes(t.outputs)) <==>
            forall r | 0 <= r < |t.rows| :: OutsWf(t.rows[r], t.outputs)
  {
    var d := File(t);
    forall r | 0 <= r < |t.rows|
      ensures d.rules[r].outputEntries == t.rows[r].outs
      ensures if NonBlank(t.rows[r]) then Readable(conditions[r]) && conditions[r] != [] else conditions[r] == []
    {
      assert d.rules[r] == FileRow(t.rows[r], t.columns);
      RowCondition(conditions[r], orders[r], t.rows[r], t.columns);
    }
  }

  /** Exactly when Go accepts the generated file: every row has a cell that is not blank,
      the row's entries, joined, are one result of the right type for every column, and
      the imports are the ones that are used. */
  lemma BuildsIff(t: Table, file: GoFile)
    requires Supported(t) && IsFileOf(file, File(t))
    ensures Build(file).Some? <==> TableWf(t) && ImportsWf(t)
  {
    BodyBuilds(t, file.body);
    TypesAgree(t.outputs);
    ImportsMatchIff(t, file);
    BuildNeeds(file);
    WellFormedIff(t);
  }

  /** No entry of the table has a comma outside of quotes. */
  predicate OneEach(t: Table) {
    forall r, j | 0 <= r < |t.rows| && 0 <= j < |t.rows[r].outs| :: Closed(t.rows[r].outs[j])
  }

  /** The row has one entry for every output column, none blank, each of its type. */
  predicate EntriesWf(row: Row, outputs: seq<OutColumn>) {
    |row.outs| == |outputs| && forall j | 0 <= j < |outputs| :: EntryFits(row.outs[j], OutType(outputs[j]))
  }

  /** Where entries hold no commas, every row needs one entry per output column that is
      not blank and of its type. */
  lemma BuildsIffEntries(t: Table, file: GoFile)
    requires Supported(t) && OneEach(t) && IsFileOf(file, File(t))
    ensures Build(file).Some? <==>
            && (forall r | 0 <= r < |t.rows| :: NonBlank(t.rows[r]) && EntriesWf(t.rows[r], t.outputs))
            && ImportsWf(t)
  {
    BuildsIff(t, file);
    WellFormedIff(t);
    AllEntriesIff(t.rows, t.outputs);
  }

  lemma AllEntriesIff(rows: seq<Row>, outputs: seq<OutColumn>)
    requires forall r | 0 <= r < |rows| :: |rows[r].outs| <= |outputs|
    requires forall r, j | 0 <= r < |rows| && 0 <= j < |rows[r].outs| :: Closed(rows[r].outs[j])
    ensures (forall r | 0 <= r < |rows| :: OutsWf(rows[r], outputs)) <==>
            (forall r | 0 <= r < |rows| :: EntriesWf(rows[r], outputs))
  {
    forall r | 0 <= r < |rows| ensures OutsWf(rows[r], outputs) <==> EntriesWf(rows[r], outputs) {
      EntriesFitIff(rows[r].outs, OutTypes(outputs));
    }
  }

  /** The failing inputs: a row of blank cells, a blank output entry, and entries that
      hold more or fewer results than there are columns. */
  lemma BlankRowIsNoFunction(t: Table, file: GoFile, r: nat)
    requires Supported(t) && IsFileOf(file, File(t)) && r < |t.rows| && !NonBlank(t.rows[r])
    ensures Build(file).None?
  {
    BodyBuilds(t, file.body);
  }

  lemma BlankOutputIsNoFunction(t: Table, file: GoFile, r: nat, j: nat)
    requires Supported(t) && IsFileOf(file, File(t)) && r < |t.rows| && j < |t.rows[r].outs|
    requires IsGap(t.rows[r].outs[j]) && forall i | 0 <= i < |t.rows[r].outs| :: Closed(t.rows[r].outs[i])
    ensures Build(file).None?
  {
    GapIsNoResult(t.rows[r].outs[j]);
    EntriesFitIff(t.rows[r].outs, OutTypes(t.outputs));
    assert !OutsWf(t.rows[r], t.outputs);
    BuildsIff(t, file);
  }

  lemma WrongCountIsNoFunction(t: Table, file: GoFile, r: nat)
    requires Supported(t) && IsFileOf(file, File(t)) && r < |t.rows| && t.rows[r].outs != []
    requires |Pieces(Join(t.rows[r].outs, ", "))| != |t.outputs|
    ensures Build(file).None?
  {
    assert !OutsWf(t.rows[r], t.outputs);
    BuildsIff(t, file);
  }

  lemma BuildNeeds(file: GoFile)
    ensures Build(file).Some? <==>
            ParseBody(file.body).Some? && ImportsMatch(file) && Returns(ParseBody(file.body).value, file.results)
  {
  }

  lemma WellFormedIff(t: Table)
    requires Supported(t)
    ensures TableWf(t) <==> && (forall r | 0 <= r < |t.rows| :: NonBlank(t.rows[r]))
                            && (forall r | 0 <= r < |t.rows| :: OutsWf(t.rows[r], t.outputs))
  {
  }

  /** Compilation preserves meaning: whatever order each row's map is walked in,
      the generated file builds, and on well-typed inputs its function returns what the
      entries of the first row that holds say, or the defaults. */
  lemma CompilationPreservesMeaning(t: Table, file: GoFile, inputs: Inputs)
    requires TableWf(t) && ImportsWf(t) && (forall r | 0 <= r < |t.rows| :: RowExact(t.rows[r]))
    requires WellTyped(t.columns, inputs) && IsFileOf(file, File(t))
    ensures Execute(file, inputs) == Results(Decision(t, inputs))
  {
    BuildsIff(t, file);
    var conditions, orders :| IsCodeWith(file.body, File(t), conditions, orders);
    var truths := TableRuns(t, conditions, orders, inputs);
    PickDecides(truths, t.rows, t.columns, Defaults(t.outputs), inputs);
  }

  /** Exact rows or not, the file builds and no assertion panics. */
  lemma CompiledNeverPanics(t: Table, file: GoFile, inputs: Inputs)
    requires TableWf(t) && ImportsWf(t) && WellTyped(t.columns, inputs) && IsFileOf(file, File(t))
    ensures Execute(file, inputs).Some? && ResultsFit(Execute(file, inputs).value, OutTypes(t.outputs))
  {
    BuildsIff(t, file);
    TypesAgree(t.outputs);
    var conditions, orders :| IsCodeWith(file.body, File(t), conditions, orders);
    var truths := TableRuns(t, conditions, orders, inputs);
    RunFits(Build(file).value, inputs, file.results);
  }

  lemma {:induction false} RunFits(b: Body, inputs: Inputs, results: seq<GoType>)
    requires Returns(b, results)
    ensures Run(b, inputs).Some? ==> ResultsFit(Run(b, inputs).value, results)
  {
    if b.If? {
      RunFits(b.rest, inputs, results);
    }
  }

  // ------------------------------------------------------------- row order

  lemma {:induction false} FirstMatch(rows: seq<Row>, columns: seq<Column>, otherwise: seq<string>, inputs: Inputs)
    requires (forall r | 0 <= r < |rows| :: RowWf(rows[r], columns)) && WellTyped(columns, inputs)
    ensures (exists i :: 0 <= i < |rows| && RowHolds(rows[i], columns, inputs)
                         && Decide(rows, columns, otherwise, inputs) == rows[i].outs)
         || ((forall i | 0 <= i < |rows| :: !RowHolds(rows[i], columns, inputs))
             && Decide(rows, columns, otherwise, inputs) == otherwise)
    decreases |rows|
  {
    if rows != [] && !RowHolds(rows[0], columns, inputs) {
      FirstMatch(rows[1..], columns, otherwise, inputs);
      assert forall i | 0 < i < |rows| :: rows[i] == rows[1..][i - 1];
      assert forall i | 0 <= i < |rows| - 1 :: rows[1..][i] == rows[i + 1];
    }
  }

  /** The UNIQUE hit policy: at most one row holds for the inputs. */
  ghost predicate Disjoint(rows: seq<Row>, columns: seq<Column>, inputs: Inputs)
    requires (forall r | 0 <= r < |rows| :: RowWf(rows[r], columns)) && WellTyped(columns, inputs)
  {
    forall i, j | 0 <= i < j < |rows| ::
      !(RowHolds(rows[i], columns, inputs) && RowHolds(rows[j], columns, inputs))
  }

  lemma SameRows(a: seq<Row>, b: seq<Row>)
    requires multiset(a) == multiset(b)
    ensures forall r | r in a :: r in b
  {
    forall r | r in a ensures r in b {
      assert r in multiset(a);
    }
  }

  /** Under the UNIQUE policy the order of the rows does not matter. */
  lemma RowOrderIrrelevant(rows: seq<Row>, others: seq<Row>, columns: seq<Column>, otherwise: seq<string>,
                           inputs: Inputs)
    requires forall r | 0 <= r < |rows| :: RowWf(rows[r], columns)
    requires forall r | 0 <= r < |others| :: RowWf(others[r], columns)
    requires WellTyped(columns, inputs) && Disjoint(rows, columns, inputs)
    requires multiset(rows) == multiset(others)
    ensures Decide(rows, columns, otherwise, inputs) == Decide(others, columns, otherwise, inputs)
  {
    SameRows(rows, others);
    SameRows(others, rows);
    FirstMatch(rows, columns, otherwise, inputs);
    FirstMatch(others, columns, otherwise, inputs);
    if i :| 0 <= i < |rows| && RowHolds(rows[i], columns, inputs) &&
            Decide(rows, columns, otherwise, inputs) == rows[i].outs
    {
      assert rows[i] in others;
      if j :| 0 <= j < |others| && RowHolds(others[j], columns, inputs)
              && Decide(others, columns, otherwise, inputs) == others[j].outs {
        assert others[j] in rows;
        var k :| 0 <= k < |rows| && rows[k] == others[j];
        assert k == i;
      }
    } else {
      assert forall j | 0 <= j < |others| :: others[j] in rows;
    }
  }

  lemma SameImports(t: Table, u: Table)
    requires ImportsWf(t) && u.columns == t.columns && u.outputs == t.outputs && multiset(t.rows) == multiset(u.rows)
    ensures ImportsWf(u)
  {
    SameRows(u.rows, t.rows);
    SameRows(t.rows, u.rows);
    TimeCellIn(t);
    TimeCellIn(u);
    forall pkg ensures OutNames(t, pkg) <==> OutNames(u, pkg) {
      OutNamesIn(t, pkg);
      OutNamesIn(u, pkg);
    }
  }

  lemma TimeCellIn(t: Table)
    ensures TimeCell(t) <==> exists row :: row in t.rows && TimeRow(row, t.columns)
  {
    TimeCellRow(t);
    if r :| 0 <= r < |t.rows| && TimeRow(t.rows[r], t.columns) {
      assert t.rows[r] in t.rows;
    }
  }

  lemma OutNamesIn(t: Table, pkg: string)
    ensures OutNames(t, pkg) <==> exists row :: row in t.rows && TextsName(row.outs, pkg)
  {
    OutNamesRow(t, pkg);
    if r :| 0 <= r < |t.rows| && TextsName(t.rows[r].outs, pkg) {
      assert t.rows[r] in t.rows;
    }
  }

  lemma OutNamesRow(t: Table, pkg: string)
    ensures OutNames(t, pkg) <==> exists r :: 0 <= r < |t.rows| && TextsName(t.rows[r].outs, pkg)
  {
  }

  lemma SameExact(a: seq<Row>, b: seq<Row>)
    requires multiset(a) == multiset(b) && forall r | 0 <= r < |a| :: RowExact(a[r])
    ensures forall r | 0 <= r < |b| :: RowExact(b[r])
  {
    SameRows(b, a);
    forall i | 0 <= i < |b| ensures RowExact(b[i]) {
      assert b[i] in a;
    }
  }

  /** So two generated functions for the same rows in different order agree. */
  lemma CompiledRowOrderIrrelevant(t: Table, u: Table, tfile: GoFile, ufile: GoFile, inputs: Inputs)
    requires TableWf(t) && TableWf(u) && ImportsWf(t) && WellTyped(t.columns, inputs)
    requires Disjoint(t.rows, t.columns, inputs)
    requires u.columns == t.columns && u.outputs == t.outputs && multiset(t.rows) == multiset(u.rows)
    requires forall r | 0 <= r < |t.rows| :: RowExact(t.rows[r])
    requires IsFileOf(tfile, File(t)) && IsFileOf(ufile, File(u))
    ensures Execute(tfile, inputs) == Execute(ufile, inputs)
  {
    SameImports(t, u);
    SameExact(t.rows, u.rows);
    RowOrderIrrelevant(t.rows, u.rows, t.columns, Defaults(t.outputs), inputs);
    CompilationPreservesMeaning(t, tfile, inputs);
    CompilationPreservesMeaning(u, ufile, inputs);
  }
}
