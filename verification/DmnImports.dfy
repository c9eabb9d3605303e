/** Which packages a generated function names. */
module DmnImports {
  import opened Wrappers
  import opened GoStrings
  import opened GoExpr
  import opened GoReturn
  import opened DmnTable
  import opened DmnCompiler
  import opened DmnText
  import DmnCells
  import opened DmnCorrect

  lemma UsesOne(t: Token, pkg: string)
    ensures Uses([t], pkg) <==> NamesPackage(t, pkg)
  {
    assert NamesPackage(t, pkg) ==> NamesPackage([t][0], pkg);
  }

  lemma UsesEither(a: seq<Token>, b: seq<Token>, pkg: string)
    ensures Uses(a + b, pkg) <==> Uses(a, pkg) || Uses(b, pkg)
  {
    if i :| 0 <= i < |a| && NamesPackage(a[i], pkg) {
      assert NamesPackage((a + b)[i], pkg);
    }
    if i :| 0 <= i < |b| && NamesPackage(b[i], pkg) {
      assert NamesPackage((a + b)[|a| + i], pkg);
    }
  }

  lemma UsesHas(ts: seq<Token>, i: nat, pkg: string)
    requires i < |ts| && NamesPackage(ts[i], pkg)
    ensures Uses(ts, pkg)
  {
  }

  // --------------------------------------------------------------- one cell

  /** Conditions name no package but `time`. */
  ghost predicate OnlyTime(ts: seq<Token>) {
    forall i | 0 <= i < |ts| :: !ts[i].Out?
  }

  /** The tokens neither assert nor build a time. */
  ghost predicate NoTime(ts: seq<Token>) {
    forall i | 0 <= i < |ts| :: !ts[i].Out? && !ts[i].Call? && (ts[i].Assert? ==> ts[i].typ != TTime)
  }

  lemma {:induction false} JoinNoTime(parts: seq<seq<Token>>, sep: Token)
    requires sep == OrOr && forall i | 0 <= i < |parts| :: NoTime(parts[i])
    ensures NoTime(JoinTokens(parts, sep))
  {
    if |parts| > 1 {
      JoinNoTime(parts[1..], sep);
    }
  }

  lemma {:induction false} SeasonsNoTime(key: string, seasons: seq<string>)
    ensures forall i | 0 <= i < |SeasonTests(key, seasons)| :: NoTime(SeasonTests(key, seasons)[i])
  {
    if seasons != [] {
      SeasonsNoTime(key, seasons[1..]);
    }
  }

  lemma StringNoTime(key: string, value: string)
    ensures NoTime(StringCondition(key, value))
  {
    if Contains(value, ",") {
      SeasonsNoTime(key, Split(value, ","));
      JoinNoTime(SeasonTests(key, Split(value, ",")), OrOr);
    }
  }

  lemma IntervalNoTime(key: string, value: string)
    requires |value| >= 2
    ensures NoTime(IntervalCondition(key, value))
  {
  }

  lemma NumberNoTime(key: string, value: string)
    ensures NoTime(NumberCondition(key, value))
  {
    if Contains(value, "..") {
      IntervalNoTime(key, value);
    }
  }

  lemma ContextNoTime(key: string, value: string)
    ensures NoTime(ContextCondition(key, value))
  {
    if Contains(value, "..") {
      IntervalNoTime(key, value);
    }
  }

  lemma OtherCells(key: string, value: string, typeRef: string)
    requires typeRef != "dateTime"
    ensures NoTime(CellCondition(key, value, typeRef))
  {
    if typeRef == "string" {
      StringNoTime(key, value);
    } else if typeRef == "number" {
      NumberNoTime(key, value);
    } else if typeRef == "context" {
      ContextNoTime(key, value);
    }
  }

  lemma IntervalUses(key: string, from: Civil, to: Civil)
    ensures Uses(TimeInterval(key, from, to), "time") && OnlyTime(TimeInterval(key, from, to))
  {
    UsesHas(TimeInterval(key, from, to), 2, "time");
  }

  /** Every condition on a time column that is not blank uses `time`. */
  lemma TimeCells(key: string, value: string)
    ensures Uses(TimeCondition(key, value), "time") && OnlyTime(TimeCondition(key, value))
  {
    if Contains(value, "..") {
      var parts := Split(value, "..");
      assert |Split(value[Index(value, "..") + 2..], "..")| >= 1;
      IntervalUses(key, ExtractTime(TrimPrefix(TrimSpace(parts[0]), "[")),
                   ExtractTime(TrimSuffix(TrimSpace(parts[1]), "]")));
    } else if HasPrefix(value, "<=") {
      TestsUse(key, Before, ExtractTime(TrimSpace(TrimPrefix(value, "<="))));
    } else if HasPrefix(value, ">=") {
      TestsUse(key, After, ExtractTime(TrimSpace(TrimPrefix(value, ">="))));
    } else if HasPrefix(value, "<") {
      TestsUse(key, Before, ExtractTime(TrimSpace(TrimPrefix(value, "<"))));
    } else if HasPrefix(value, ">") {
      TestsUse(key, After, ExtractTime(TrimSpace(TrimPrefix(value, ">"))));
    } else {
      TestsUse(key, Equal, ExtractTime(value));
    }
  }

  lemma TestsUse(key: string, test: TimeMethod, at: Civil)
    ensures Uses(TimeTest(key, test, at), "time") && OnlyTime(TimeTest(key, test, at))
    ensures var either := TimeTest(key, test, at) + [OrOr] + TimeTest(key, Equal, at);
            Uses(either, "time") && OnlyTime(either)
  {
    var one := TimeTest(key, test, at);
    UsesHas(one, 1, "time");
    UsesHas(one + [OrOr] + TimeTest(key, Equal, at), 1, "time");
  }

  lemma NoTimeNoUse(ts: seq<Token>, pkg: string)
    requires NoTime(ts)
    ensures !Uses(ts, pkg)
  {
  }

  // ---------------------------------------------------------------- one row

  predicate UsesAny(parts: seq<seq<Token>>, pkg: string) {
    exists i | 0 <= i < |parts| :: Uses(parts[i], pkg)
  }

  lemma UsesAnyCons(first: seq<Token>, rest: seq<seq<Token>>, pkg: string)
    ensures UsesAny([first] + rest, pkg) <==> Uses(first, pkg) || UsesAny(rest, pkg)
  {
    var all := [first] + rest;
    assert all[0] == first;
    if i :| 0 <= i < |rest| && Uses(rest[i], pkg) {
      assert Uses(all[i + 1], pkg);
    }
  }

  lemma {:induction false} JoinUses(parts: seq<seq<Token>>, pkg: string)
    ensures Uses(JoinTokens(parts, AndAnd), pkg) <==> UsesAny(parts, pkg)
  {
    if |parts| > 1 {
      JoinUses(parts[1..], pkg);
      UsesEither(parts[0] + [AndAnd], JoinTokens(parts[1..], AndAnd), pkg);
      UsesEither(parts[0], [AndAnd], pkg);
      UsesOne(AndAnd, pkg);
      assert parts == [parts[0]] + parts[1..];
      UsesAnyCons(parts[0], parts[1..], pkg);
    }
  }

  function NonEmpty(parts: seq<seq<Token>>): seq<seq<Token>> {
    if parts == [] then [] else (if parts[0] == [] then [] else [parts[0]]) + NonEmpty(parts[1..])
  }

  lemma {:induction false} NonEmptyUses(parts: seq<seq<Token>>, pkg: string)
    ensures UsesAny(NonEmpty(parts), pkg) <==> UsesAny(parts, pkg)
  {
    if parts != [] {
      NonEmptyUses(parts[1..], pkg);
      assert parts == [parts[0]] + parts[1..];
      UsesAnyCons(parts[0], parts[1..], pkg);
      UsesAnyCons(parts[0], NonEmpty(parts[1..]), pkg);
      assert [] + NonEmpty(parts[1..]) == NonEmpty(parts[1..]);
    }
  }

  /** What each entry of the map is emitted as, in the given order. */
  function Entries(order: seq<string>, m: map<string, string>): seq<seq<Token>>
    requires forall i | 0 <= i < |order| :: order[i] in m
  {
    seq(|order|, i requires 0 <= i < |order| => EntryCondition(order[i], m[order[i]]))
  }

  lemma {:induction false} ConditionsAreEntries(order: seq<string>, m: map<string, string>)
    requires forall i | 0 <= i < |order| :: order[i] in m
    ensures Conditions(order, m) == NonEmpty(Entries(order, m))
    decreases |order|
  {
    if order != [] {
      ConditionsAreEntries(order[1..], m);
      assert Entries(order, m)[1..] == Entries(order[1..], m);
    }
  }

  lemma ConditionUses(condition: seq<Token>, order: seq<string>, m: map<string, string>, pkg: string)
    requires IsCondition(condition, m, order)
    ensures Uses(condition, pkg) <==> UsesAny(Entries(order, m), pkg)
  {
    ConditionsAreEntries(order, m);
    JoinUses(Conditions(order, m), pkg);
    NonEmptyUses(Entries(order, m), pkg);
  }

  /** The row compares a time. */
  predicate TimeRow(row: Row, columns: seq<Column>) {
    exists i | 0 <= i < |row.cells| && i < |columns| :: row.cells[i] != Blank && columns[i].typeRef == "dateTime"
  }

  lemma EntryUses(key: string, m: map<string, string>, row: Row, columns: seq<Column>, i: nat)
    requires CellsWf(row, columns) && ColumnsWf(columns) && MapsRow(m, row, columns)
    requires i < |row.cells| && columns[i].name == key
    ensures key in m
    ensures Uses(EntryCondition(key, m[key]), "time") <==> row.cells[i] != Blank && columns[i].typeRef == "dateTime"
    ensures !Uses(EntryCondition(key, m[key]), "math")
  {
    EntrySplits(row.cells[i], columns[i].typeRef);
    CellUses(key, row.cells[i], columns[i].typeRef);
  }

  lemma CellUses(key: string, cell: Cell, typeRef: string)
    requires CellWf(cell, typeRef)
    ensures Uses(CellCondition(key, Text(cell, typeRef), typeRef), "time") <==> cell != Blank && typeRef == "dateTime"
    ensures !Uses(CellCondition(key, Text(cell, typeRef), typeRef), "math")
  {
    var value := Text(cell, typeRef);
    CellBlank(cell, typeRef);
    if typeRef == "dateTime" {
      TimeCells(key, value);
    } else {
      OtherCells(key, value, typeRef);
      NoTimeNoUse(CellCondition(key, value, typeRef), "time");
      NoTimeNoUse(CellCondition(key, value, typeRef), "math");
    }
  }

  lemma CellBlank(cell: Cell, typeRef: string)
    requires CellWf(cell, typeRef)
    ensures Text(cell, typeRef) == "" <==> cell == Blank
  {
    if cell != Blank {
      DmnCells.TextNonEmpty(cell, typeRef);
    }
  }

  /** The condition of a row names `time` exactly if the row compares a time, and never
      `math`. */
  lemma RowUses(condition: seq<Token>, order: seq<string>, row: Row, columns: seq<Column>)
    requires CellsWf(row, columns) && ColumnsWf(columns) && IsCondition(condition, RowMap(row, columns), order)
    ensures Uses(condition, "time") <==> TimeRow(row, columns)
    ensures !Uses(condition, "math")
  {
    var m := RowMap(row, columns);
    RowMapMaps(row, columns);
    ConditionUses(condition, order, m, "time");
    ConditionUses(condition, order, m, "math");
    forall k | 0 <= k < |order|
      ensures Uses(Entries(order, m)[k], "time") ==> TimeRow(row, columns)
      ensures !Uses(Entries(order, m)[k], "math")
    {
      var i :| 0 <= i < |row.cells| && columns[i].name == order[k];
      EntryUses(order[k], m, row, columns, i);
    }
    if i :| 0 <= i < |row.cells| && row.cells[i] != Blank && columns[i].typeRef == "dateTime" {
      EntryUses(columns[i].name, m, row, columns, i);
      var k :| 0 <= k < |order| && order[k] == columns[i].name;
      assert Uses(Entries(order, m)[k], "time");
    }
  }

  // ------------------------------------------------------------ the function

  lemma PieceUses(piece: string, pkg: string)
    ensures Uses(PieceTokens(piece), pkg) <==> PieceNames(piece, pkg)
  {
    if ParseResult(piece).Some? {
      ResultTokens(piece);
      UsesOne(Out(ParseResult(piece).value), pkg);
    }
  }

  lemma {:induction false} ListUses(pieces: seq<string>, pkg: string)
    ensures Uses(ListTokens(pieces), pkg) <==> exists i | 0 <= i < |pieces| :: PieceNames(pieces[i], pkg)
  {
    if pieces != [] {
      PieceUses(pieces[0], pkg);
      if |pieces| > 1 {
        ListUses(pieces[1..], pkg);
        UsesEither(PieceTokens(pieces[0]) + [Comma], ListTokens(pieces[1..]), pkg);
        UsesEither(PieceTokens(pieces[0]), [Comma], pkg);
        UsesOne(Comma, pkg);
      }
      if i :| 0 <= i < |pieces[1..]| && PieceNames(pieces[1..][i], pkg) {
        assert pieces[i + 1] == pieces[1..][i];
      }
      if i :| 0 <= i < |pieces| && PieceNames(pieces[i], pkg) {
        assert i > 0 ==> pieces[1..][i - 1] == pieces[i];
      }
    }
  }

  lemma OutTokensUse(texts: seq<string>, pkg: string)
    ensures Uses(OutTokens(texts), pkg) <==> TextsName(texts, pkg)
  {
    ListUses(Pieces(Join(texts, ", ")), pkg);
  }

  lemma IfUses(condition: seq<Token>, outs: seq<string>, pkg: string)
    ensures Uses(IfTokens(condition, outs), pkg) <==> Uses(condition, pkg) || TextsName(outs, pkg)
  {
    var a, b, c := [KwIf] + condition, [KwIf] + condition + [LBrace, KwReturn],
        [KwIf] + condition + [LBrace, KwReturn] + OutTokens(outs);
    OutTokensUse(outs, pkg);
    UsesEither(c, [RBrace], pkg);
    UsesEither(b, OutTokens(outs), pkg);
    UsesEither(a, [LBrace, KwReturn], pkg);
    UsesEither([KwIf], condition, pkg);
  }

  lemma {:induction false} ChainUses(conditions: seq<seq<Token>>, rules: seq<Rule>, pkg: string)
    requires |conditions| == |rules|
    ensures Uses(Chain(conditions, rules), pkg)
       <==> exists r :: 0 <= r < |rules| && (Uses(conditions[r], pkg) || TextsName(rules[r].outputEntries, pkg))
    decreases |rules|
  {
    if rules != [] {
      ChainUses(conditions[1..], rules[1..], pkg);
      UsesEither(IfTokens(conditions[0], rules[0].outputEntries), Chain(conditions[1..], rules[1..]), pkg);
      IfUses(conditions[0], rules[0].outputEntries, pkg);
      assert forall r | 0 < r < |rules| :: conditions[r] == conditions[1..][r - 1] && rules[r] == rules[1..][r - 1];
      if r :| 0 <= r < |rules[1..]| && (Uses(conditions[1..][r], pkg) || TextsName(rules[1..][r].outputEntries, pkg)) {
        assert conditions[r + 1] == conditions[1..][r] && rules[r + 1] == rules[1..][r];
      }
    }
  }

  lemma NumberDefault()
    ensures Closed("math.NaN()") && ParseResult("math.NaN()") == Some(Named("math", "math.NaN()", TFloat64))
  {
    TightTrim("math.NaN()");
    NoQuotes("math.NaN()");
  }

  lemma {:induction false} NoQuotes(s: string)
    requires '"' !in s && ',' !in s
    ensures Closed(s)
    decreases |s|
  {
    if s != "" {
      NoQuotes(s[1..]);
    }
  }

  lemma BooleanDefault()
    ensures Closed("false") && ParseResult("false") == Some(Known(Bool(false)))
  {
    TightTrim("false");
    NoQuotes("false");
  }

  lemma TextDefault()
    ensures Closed("\"\"") && ParseResult("\"\"") == Some(Known(Str("")))
  {
    var s := "\"\"";
    TightTrim(s);
    assert s[1..] == "\"" && s[1..][1..] == "" && s[1..1] == "";
    assert ClosedFrom(s[1..][1..], false);
  }

  lemma DefaultReads(output: Output)
    ensures Closed(DefaultOf(output)) && EntryFits(DefaultOf(output), ResultType(output))
    ensures PieceNames(DefaultOf(output), "math") <==> output.typeRef == "number"
    ensures !PieceNames(DefaultOf(output), "time")
  {
    if output.typeRef == "number" {
      NumberDefault();
      ReadsTo("math.NaN()", Named("math", "math.NaN()", TFloat64), TFloat64);
    } else if output.typeRef == "boolean" {
      BooleanDefault();
      ReadsTo("false", Known(Bool(false)), TBool);
    } else {
      TextDefault();
      ReadsTo("\"\"", Known(Str("")), TString);
    }
  }

  lemma ReadsTo(text: string, r: Returned, typ: GoType)
    requires ParseResult(text) == Some(r)
    ensures EntryFits(text, typ) <==> ResultFits(r, typ)
    ensures forall pkg :: PieceNames(text, pkg) <==> r.Named? && r.pkg == pkg
  {
  }

  lemma {:induction false} DefaultAt(outputs: seq<Output>)
    ensures |DefaultReturn(outputs)| == |outputs|
    ensures forall i | 0 <= i < |outputs| :: DefaultReturn(outputs)[i] == DefaultOf(outputs[i])
  {
    if outputs != [] {
      DefaultAt(outputs[1..]);
    }
  }

  lemma DefaultsName(outputs: seq<Output>)
    ensures !TextsName(DefaultReturn(outputs), "time")
    ensures TextsName(DefaultReturn(outputs), "math") <==> NumberResult(outputs)
  {
    DefaultAt(outputs);
    var texts := DefaultReturn(outputs);
    forall i | 0 <= i < |outputs|
      ensures Closed(texts[i]) && !PieceNames(texts[i], "time")
      ensures PieceNames(texts[i], "math") <==> outputs[i].typeRef == "number"
    {
      DefaultReads(outputs[i]);
    }
    EntriesName(texts, "time");
    EntriesName(texts, "math");
  }

  lemma BodyUses(d: DecisionTable, conditions: seq<seq<Token>>, pkg: string)
    requires |conditions| == |d.rules|
    ensures Uses(BodyTokens(d, conditions), pkg)
       <==> Uses(Chain(conditions, d.rules), pkg) || TextsName(DefaultReturn(d.outputs), pkg)
  {
    var outs := DefaultReturn(d.outputs);
    OutTokensUse(outs, pkg);
    UsesEither(Chain(conditions, d.rules), [KwReturn] + OutTokens(outs) + [RBrace], pkg);
    UsesEither([KwReturn] + OutTokens(outs), [RBrace], pkg);
    UsesEither([KwReturn], OutTokens(outs), pkg);
  }

  lemma TableUses(t: Table, conditions: seq<seq<Token>>, orders: seq<seq<string>>)
    requires Supported(t) && AreConditions(conditions, File(t), orders)
    ensures Uses(BodyTokens(File(t), conditions), "time") <==> TimeCell(t) || OutNames(t, "time")
    ensures Uses(BodyTokens(File(t), conditions), "math") <==> NumberOutput(t) || OutNames(t, "math")
  {
    PackageUses(t, conditions, orders, "time");
    PackageUses(t, conditions, orders, "math");
  }

  lemma PackageUses(t: Table, conditions: seq<seq<Token>>, orders: seq<seq<string>>, pkg: string)
    requires Supported(t) && AreConditions(conditions, File(t), orders) && (pkg == "time" || pkg == "math")
    ensures Uses(BodyTokens(File(t), conditions), pkg)
       <==> (pkg == "time" && TimeCell(t)) || OutNames(t, pkg) || (pkg == "math" && NumberOutput(t))
  {
    var d := File(t);
    BodyUses(d, conditions, pkg);
    ChainUses(conditions, d.rules, pkg);
    RulesUse(t, conditions, orders, pkg);
    DefaultsName(d.outputs);
    NumbersAgree(t);
  }

  lemma NumbersAgree(t: Table)
    ensures NumberResult(FileOutputs(t.outputs)) <==> NumberOutput(t)
  {
    var o := FileOutputs(t.outputs);
    if i :| 0 <= i < |t.outputs| && t.outputs[i].typeRef == "number" {
      assert o[i].typeRef == "number";
    }
  }

  lemma TimeCellRow(t: Table)
    ensures TimeCell(t) <==> exists r :: 0 <= r < |t.rows| && TimeRow(t.rows[r], t.columns)
  {
  }

  lemma RulesUse(t: Table, conditions: seq<seq<Token>>, orders: seq<seq<string>>, pkg: string)
    requires Supported(t) && AreConditions(conditions, File(t), orders) && (pkg == "time" || pkg == "math")
    ensures (exists r :: 0 <= r < |t.rows| &&
                         (Uses(conditions[r], pkg) || TextsName(File(t).rules[r].outputEntries, pkg)))
       <==> (pkg == "time" && TimeCell(t)) || OutNames(t, pkg)
  {
    var rules := File(t).rules;
    forall r | 0 <= r < |t.rows|
      ensures rules[r].outputEntries == t.rows[r].outs
      ensures Uses(conditions[r], pkg) <==> pkg == "time" && TimeRow(t.rows[r], t.columns)
    {
      assert rules[r] == FileRow(t.rows[r], t.columns);
      RowUses(conditions[r], orders[r], t.rows[r], t.columns);
    }
    TimeCellRow(t);
    if r :| 0 <= r < |t.rows| && TextsName(t.rows[r].outs, pkg) {
      assert TextsName(rules[r].outputEntries, pkg);
    }
  }

  /** The compiler chooses the right imports exactly if the table's labels and outputs
      are as `ImportsWf` says. */
  lemma ImportsMatchIff(t: Table, file: GoFile)
    requires Supported(t) && IsFileOf(file, File(t))
    ensures ImportsMatch(file) <==> ImportsWf(t)
  {
    FileUses(t, file.body);
    ImportsChosen(t, file);
  }

  lemma FileUses(t: Table, body: seq<Token>)
    requires Supported(t) && IsCodeOf(body, File(t))
    ensures Uses(body, "time") <==> TimeCell(t) || OutNames(t, "time")
    ensures Uses(body, "math") <==> NumberOutput(t) || OutNames(t, "math")
  {
    var conditions, orders :| IsCodeWith(body, File(t), conditions, orders);
    TableUses(t, conditions, orders);
  }

  lemma ImportsChosen(t: Table, file: GoFile)
    requires Supported(t) && IsFileOf(file, File(t))
    ensures "time" in file.imports <==> DateTimeLabel(t)
    ensures "math" in file.imports <==> NumberOutput(t)
  {
    LabelsAgree(t.columns);
    NumbersAgree(t);
  }

  lemma LabelsAgree(columns: seq<Column>)
    ensures Labelled(ColumnInputs(columns), "DateTime") <==>
            exists i | 0 <= i < |columns| :: columns[i].name == "DateTime"
  {
    var inputs := ColumnInputs(columns);
    if i :| 0 <= i < |columns| && columns[i].name == "DateTime" {
      assert inputs[i].name == "DateTime";
    }
  }
}
