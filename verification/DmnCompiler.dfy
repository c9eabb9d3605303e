/** The DMN-to-Go compiler: from the texts of a decision table to the tokens of
    a Go function body. Branch for branch the code of
    src/dmnparser/parser/parser.go; each emitter is a function of its arguments,
    and the ones the source writes as loops are methods proved equal to it. */
module DmnCompiler {
  import opened Wrappers
  import opened Sequences
  import opened GoStrings
  import opened GoExpr
  import opened GoReturn

  // ------------------------------------------------------------- emitters

  /** The two ways of writing a map key: `"%s"` pastes it, `%q` quotes it. */
  function PastedKey(key: string, typ: GoType): Token {
    if IsPlain(key) then Assert(key, typ) else Junk(key)
  }

  function QuotedKey(key: string, typ: GoType): Token {
    Assert(key, typ)
  }

  /** Text pasted as the operand of a comparison, as Go's lexer reads it. */
  function Paste(text: string): Token {
    match ParseLiteral(text)
    case Some(v) => Lit(v)
    case None => Junk(text)
  }

  function StringTest(key: string, item: string): seq<Token> {
    [PastedKey(key, TString), Op("=="), Paste("\"" + item + "\"")]
  }

  function SeasonTest(key: string, season: string): seq<Token> {
    StringTest(key, Trim(season, " \""))
  }

  function SeasonTests(key: string, seasons: seq<string>): seq<seq<Token>> {
    if seasons == [] then [] else [SeasonTest(key, seasons[0])] + SeasonTests(key, seasons[1..])
  }

  function StringCondition(key: string, value: string): seq<Token> {
    if Contains(value, ",") then
      [LParen] + JoinTokens(SeasonTests(key, Split(value, ",")), OrOr) + [RParen]
    else
      StringTest(key, Trim(value, "\""))
  }

  function ExtractOperator(value: string): string {
    if HasPrefix(value, "<=") then "<="
    else if HasPrefix(value, ">=") then ">="
    else if HasPrefix(value, "<") then "<"
    else if HasPrefix(value, ">") then ">"
    else if HasPrefix(value, "=") then "="
    else ""
  }

  /** Interval cells of a column whose label is `{name: expression}` read `name`. */
  function IntervalKey(key: string): string {
    if Contains(key, ":") then TrimSpace(Split(Trim(key, "{}"), ":")[0]) else key
  }

  function IntervalCondition(key: string, value: string): seq<Token>
    requires |value| >= 2
  {
    var bounds := Split(value[1..|value| - 1], "..");
    if |bounds| != 2 then []
    else
      var k := PastedKey(IntervalKey(key), TFloat64);
      [k, Op(if HasPrefix(value, "[") then ">=" else ">"), Paste(TrimSpace(bounds[0]))] + [AndAnd] +
      [k, Op(if HasSuffix(value, "]") then "<=" else "<"), Paste(TrimSpace(bounds[1]))]
  }

  function ComparisonOp(value: string): Token {
    Op(if ExtractOperator(value) == "" then "==" else ExtractOperator(value))
  }

  function NumberCondition(key: string, value: string): seq<Token> {
    if Contains(value, "..") then IntervalCondition(key, value)
    else [PastedKey(key, TFloat64), ComparisonOp(value), Paste(Trim(value, "<=>"))]
  }

  function ContextCondition(key: string, value: string): seq<Token> {
    if Contains(value, "..") then IntervalCondition(key, value)
    else [QuotedKey(key, TFloat64), ComparisonOp(value), Paste(TrimSpace(Trim(value, "<=>")))]
  }

  // ------------------------------------------------------------------ time

  function Number(s: string): Option<int> {
    if s != "" && IsDigits(s) then Some(DigitsValue(s)) else None
  }

  /** `time.Parse(time.RFC3339, s)` without fractional seconds: the fields as
      written; the zone only has to be well formed. */
  function ParseRfc3339(s: string): Option<Civil> {
    if |s| >= 20 && s[4] == '-' && s[7] == '-' && s[10] == 'T' && s[13] == ':' && s[16] == ':'
       && Number(s[..4]).Some? && Number(s[5..7]).Some? && Number(s[8..10]).Some?
       && Number(s[11..13]).Some? && Number(s[14..16]).Some? && Number(s[17..19]).Some?
       && ZoneOk(s[19..])
    then
      var c := Civil(Number(s[..4]).value, Number(s[5..7]).value, Number(s[8..10]).value,
                     Number(s[11..13]).value, Number(s[14..16]).value, Number(s[17..19]).value);
      if 1 <= c.month <= 12 && 1 <= c.day <= DaysIn(c.year, c.month) && c.hour < 24 && c.minute < 60 && c.second < 60
      then Some(c) else None
    else
      None
  }

  predicate ZoneOk(z: string) {
    z == "Z" || (|z| == 6 && z[0] in "+-" && z[3] == ':' && IsDigits(z[1..3]) && IsDigits(z[4..6]))
  }

  const ZERO_TIME := Civil(1, 1, 1, 0, 0, 0)

  /** Parse errors are ignored: the zero time is printed. */
  function ExtractTime(text: string): Civil {
    match ParseRfc3339(TrimSuffix(TrimPrefix(text, "date and time(\""), "\")"))
    case Some(c) => c
    case None => ZERO_TIME
  }

  function TimeTest(key: string, when: TimeMethod, at: Civil): seq<Token> {
    [PastedKey(key, TTime), Call(when, at)]
  }

  function TimeInterval(key: string, from: Civil, to: Civil): seq<Token> {
    [LParen] + TimeTest(key, After, from) + [OrOr] + TimeTest(key, Equal, from) + [RParen] + [AndAnd] +
    [LParen] + TimeTest(key, Before, to) + [OrOr] + TimeTest(key, Equal, to) + [RParen]
  }

  function TimeCondition(key: string, value: string): seq<Token> {
    if Contains(value, "..") then
      var parts := Split(value, "..");
      if |parts| < 2 then []  // a separator was found, so there are two parts
      else
        TimeInterval(key, ExtractTime(TrimPrefix(TrimSpace(parts[0]), "[")),
                     ExtractTime(TrimSuffix(TrimSpace(parts[1]), "]")))
    else if HasPrefix(value, "<=") then
      var at := ExtractTime(TrimSpace(TrimPrefix(value, "<=")));
      TimeTest(key, Before, at) + [OrOr] + TimeTest(key, Equal, at)
    else if HasPrefix(value, ">=") then
      var at := ExtractTime(TrimSpace(TrimPrefix(value, ">=")));
      TimeTest(key, After, at) + [OrOr] + TimeTest(key, Equal, at)
    else if HasPrefix(value, "<") then
      TimeTest(key, Before, ExtractTime(TrimSpace(TrimPrefix(value, "<"))))
    else if HasPrefix(value, ">") then
      TimeTest(key, After, ExtractTime(TrimSpace(TrimPrefix(value, ">"))))
    else
      TimeTest(key, Equal, ExtractTime(value))
  }

  // ------------------------------------------------------------- conditions

  function CellCondition(key: string, value: string, typeRef: string): seq<Token> {
    if value == "" then []
    else if typeRef == "dateTime" then TimeCondition(key, value)
    else if typeRef == "boolean" then [PastedKey(key, TBool), Op("=="), Paste(value)]
    else if typeRef == "string" then StringCondition(key, value)
    else if typeRef == "number" then NumberCondition(key, value)
    else if typeRef == "context" then ContextCondition(key, value)
    else [PastedKey(key, TString), Op("=="), Paste(value)]
  }

  /** An entry of the conditions map: the cell text and the type behind a bar. */
  function EntryCondition(key: string, valueType: string): seq<Token> {
    var parts := Split(valueType, "|");
    if |parts| < 2 then []  // every entry is written with a bar
    else CellCondition(key, parts[0], parts[1])
  }

  /** The non-empty conditions in the order in which the map yields its keys. */
  function Conditions(order: seq<string>, m: map<string, string>): seq<seq<Token>>
    requires forall i | 0 <= i < |order| :: order[i] in m
  {
    if order == [] then []
    else
      var c := EntryCondition(order[0], m[order[0]]);
      (if c == [] then [] else [c]) + Conditions(order[1..], m)
  }

  /** `order` lists every key of the map once. */
  ghost predicate IsOrder(order: seq<string>, keys: set<string>) {
    && (forall i | 0 <= i < |order| :: order[i] in keys)
    && (forall k | k in keys :: k in order)
    && (forall i, j | 0 <= i < j < |order| :: order[i] != order[j])
  }

  method ProcessStringCondition(key: string, value: string) returns (toks: seq<Token>)
    ensures toks == StringCondition(key, value)
  {
    if Contains(value, ",") {
      var seasons := Split(value, ",");
      var orConditions := [];
      for i := 0 to |seasons|
        invariant orConditions + SeasonTests(key, seasons[i..]) == SeasonTests(key, seasons)
      {
        var trimmed := Trim(seasons[i], " \"");
        orConditions := orConditions + [StringTest(key, trimmed)];
        assert seasons[i..][1..] == seasons[i + 1..];
      }
      assert orConditions + [] == orConditions;
      return [LParen] + JoinTokens(orConditions, OrOr) + [RParen];
    }
    toks := StringTest(key, Trim(value, "\""));
  }

  /** Go's `range` over the map yields the keys in an order of its own choice. */
  method GenerateConditions(inputMap: map<string, string>) returns (toks: seq<Token>)
    ensures exists order :: IsCondition(toks, inputMap, order)
  {
    var conditions := [];
    ghost var order := [];
    var left := inputMap.Keys;
    while left != {}
      invariant left <= inputMap.Keys
      invariant IsOrder(order, inputMap.Keys - left)
      invariant conditions == Conditions(order, inputMap)
      decreases left
    {
      var key :| key in left;
      var condition := EntryCondition(key, inputMap[key]);
      if condition != [] {
        conditions := conditions + [condition];
      }
      ConditionsAppend(order, key, inputMap);
      order := order + [key];
      left := left - {key};
    }
    assert inputMap.Keys - left == inputMap.Keys;
    toks := JoinTokens(conditions, AndAnd);
    assert IsCondition(toks, inputMap, order);
  }

  lemma {:induction false} ConditionsAppend(order: seq<string>, key: string, m: map<string, string>)
    requires key in m && forall i | 0 <= i < |order| :: order[i] in m
    ensures Conditions(order + [key], m)
         == Conditions(order, m) + (if EntryCondition(key, m[key]) == [] then [] else [EntryCondition(key, m[key])])
    decreases |order|
  {
    if order == [] {
      assert order + [key] == [key];
    } else {
      assert (order + [key])[1..] == order[1..] + [key];
      ConditionsAppend(order[1..], key, m);
      var first := if EntryCondition(order[0], m[order[0]]) == [] then [] else [EntryCondition(order[0], m[order[0]])];
      var last := if EntryCondition(key, m[key]) == [] then [] else [EntryCondition(key, m[key])];
      Associate(first, Conditions(order[1..], m), last);
    }
  }

  // ------------------------------------------------------------ the function

  /** A decision table as the XML decoder delivers it. */
  datatype Input = Input(name: string, typeRef: string)
  datatype Output = Output(typeRef: string)
  datatype Rule = Rule(inputEntries: seq<string>, outputEntries: seq<string>)
  datatype DecisionTable = DecisionTable(inputs: seq<Input>, outputs: seq<Output>, rules: seq<Rule>)

  /** The source indexes inputs and outputs by the positions of a rule's entries. */
  predicate Indexable(d: DecisionTable) {
    forall r | 0 <= r < |d.rules| ::
      |d.rules[r].inputEntries| <= |d.inputs| && |d.rules[r].outputEntries| <= |d.outputs|
  }

  function EntryMap(inputs: seq<Input>, entries: seq<string>): map<string, string>
    requires |entries| <= |inputs|
    decreases |entries|
  {
    if entries == [] then map[]
    else
      var n := |entries| - 1;
      EntryMap(inputs, entries[..n])[inputs[n].name := entries[n] + "|" + inputs[n].typeRef]
  }

  function IfTokens(condition: seq<Token>, outs: seq<string>): seq<Token> {
    [KwIf] + condition + [LBrace, KwReturn] + OutTokens(outs) + [RBrace]
  }

  function DefaultOf(output: Output): string {
    if output.typeRef == "number" then "math.NaN()"
    else if output.typeRef == "boolean" then "false"
    else "\"\""
  }

  function DefaultReturn(outputs: seq<Output>): seq<string> {
    if outputs == [] then [] else [DefaultOf(outputs[0])] + DefaultReturn(outputs[1..])
  }

  lemma {:induction false} DefaultReturnMore(outputs: seq<Output>, output: Output)
    ensures DefaultReturn(outputs + [output]) == DefaultReturn(outputs) + [DefaultOf(output)]
  {
    if outputs == [] {
      assert outputs + [output] == [output];
    } else {
      assert (outputs + [output])[1..] == outputs[1..] + [output];
      DefaultReturnMore(outputs[1..], output);
    }
  }

  function ResultType(output: Output): GoType {
    if output.typeRef == "number" then TFloat64 else if output.typeRef == "boolean" then TBool else TString
  }

  function ResultTypes(outputs: seq<Output>): (r: seq<GoType>)
    ensures |r| == |outputs|
  {
    seq(|outputs|, i requires 0 <= i < |outputs| => ResultType(outputs[i]))
  }

  /** Some input has the label. */
  predicate Labelled(inputs: seq<Input>, name: string) {
    exists i | 0 <= i < |inputs| :: inputs[i].name == name
  }

  predicate NumberResult(outputs: seq<Output>) {
    exists i | 0 <= i < |outputs| :: outputs[i].typeRef == "number"
  }

  function Imports(d: DecisionTable): seq<string> {
    (if Labelled(d.inputs, "DateTime") then ["time"] else []) + (if NumberResult(d.outputs) then ["math"] else [])
  }

  /** The source's `contains`. */
  method HasLabel(inputs: seq<Input>, name: string) returns (found: bool)
    ensures found <==> Labelled(inputs, name)
  {
    for i := 0 to |inputs|
      invariant forall j | 0 <= j < i :: inputs[j].name != name
    {
      if inputs[i].name == name {
        return true;
      }
    }
    found := false;
  }

  method BuildImports(d: DecisionTable) returns (imports: seq<string>, returnTypes: seq<GoType>)
    ensures imports == Imports(d) && returnTypes == ResultTypes(d.outputs)
  {
    imports, returnTypes := [], [];
    var dated := HasLabel(d.inputs, "DateTime");
    if dated {
      imports := imports + ["time"];
    }
    var needsMathImport := false;
    for i := 0 to |d.outputs|
      invariant returnTypes == ResultTypes(d.outputs)[..i]
      invariant needsMathImport <==> exists j :: 0 <= j < i && d.outputs[j].typeRef == "number"
    {
      var outputType := TString;
      match d.outputs[i].typeRef {
        case "number" =>
          outputType := TFloat64;
          needsMathImport := true;
        case "boolean" => outputType := TBool;
        case _ =>
      }
      returnTypes := returnTypes + [outputType];
    }
    if needsMathImport {
      imports := imports + ["math"];
    }
  }

  /** The if-chain for conditions already emitted. */
  function Chain(conditions: seq<seq<Token>>, rules: seq<Rule>): seq<Token>
    requires |conditions| == |rules|
  {
    if rules == [] then []
    else IfTokens(conditions[0], rules[0].outputEntries) + Chain(conditions[1..], rules[1..])
  }

  /** `conditions[r]` is what is emitted for rule `r` when its map is walked in
      the order `orders[r]`. */
  ghost predicate AreConditions(conditions: seq<seq<Token>>, d: DecisionTable, orders: seq<seq<string>>)
    requires Indexable(d)
  {
    && |conditions| == |orders| == |d.rules|
    && forall r | 0 <= r < |d.rules| ::
        IsCondition(conditions[r], EntryMap(d.inputs, d.rules[r].inputEntries), orders[r])
  }

  ghost predicate IsCondition(condition: seq<Token>, m: map<string, string>, order: seq<string>) {
    IsOrder(order, m.Keys) && condition == JoinTokens(Conditions(order, m), AndAnd)
  }

  function BodyTokens(d: DecisionTable, conditions: seq<seq<Token>>): seq<Token>
    requires |conditions| == |d.rules|
  {
    Chain(conditions, d.rules) + ([KwReturn] + OutTokens(DefaultReturn(d.outputs)) + [RBrace])
  }

  method BuildConditionsMap(inputs: seq<Input>, entries: seq<string>) returns (m: map<string, string>)
    requires |entries| <= |inputs|
    ensures m == EntryMap(inputs, entries)
  {
    m := map[];
    for i := 0 to |entries|
      invariant m == EntryMap(inputs, entries[..i])
    {
      assert entries[..i + 1][..i] == entries[..i];
      m := m[inputs[i].name := entries[i] + "|" + inputs[i].typeRef];
    }
    assert entries[..|entries|] == entries;
  }

  method BuildDefaultReturn(outputs: seq<Output>) returns (r: seq<string>)
    ensures r == DefaultReturn(outputs)
  {
    r := [];
    for i := 0 to |outputs|
      invariant r == DefaultReturn(outputs[..i])
    {
      assert outputs[..i + 1] == outputs[..i] + [outputs[i]];
      DefaultReturnMore(outputs[..i], outputs[i]);
      r := r + [if outputs[i].typeRef == "number" then "math.NaN()"
                else if outputs[i].typeRef == "boolean" then "false"
                else "\"\""];
    }
    assert outputs[..|outputs|] == outputs;
  }

  method GenerateRule(inputs: seq<Input>, rule: Rule) returns (condition: seq<Token>)
    requires |rule.inputEntries| <= |inputs|
    ensures exists order :: IsCondition(condition, EntryMap(inputs, rule.inputEntries), order)
  {
    var conditionsMap := BuildConditionsMap(inputs, rule.inputEntries);
    condition := GenerateConditions(conditionsMap);
  }

  /** The code is the body for conditions that were emitted in some orders. */
  ghost predicate IsCodeWith(code: seq<Token>, d: DecisionTable, conditions: seq<seq<Token>>, orders: seq<seq<string>>)
    requires Indexable(d)
  {
    AreConditions(conditions, d, orders) && code == BodyTokens(d, conditions)
  }

  ghost predicate IsCodeOf(code: seq<Token>, d: DecisionTable) {
    Indexable(d) && exists conditions, orders :: IsCodeWith(code, d, conditions, orders)
  }

  /** The generated file: its imports, result types and code. */
  ghost predicate IsFileOf(file: GoFile, d: DecisionTable) {
    file.imports == Imports(d) && file.results == ResultTypes(d.outputs) && IsCodeOf(file.body, d)
  }

  /** Whatever the orders in which the rules' maps yield their keys, the file is the
      table's. */
  method GenerateDecisionFunction(d: DecisionTable) returns (file: GoFile)
    requires Indexable(d)
    ensures IsFileOf(file, d)
  {
    var imports, returnTypes := BuildImports(d);
    var code := GenerateBody(d);
    file := GoFile(imports, returnTypes, code);
  }

  method GenerateBody(d: DecisionTable) returns (code: seq<Token>)
    requires Indexable(d)
    ensures IsCodeOf(code, d)
  {
    code := [];
    ghost var conditions: seq<seq<Token>>, orders: seq<seq<string>> := [], [];
    for r := 0 to |d.rules|
      invariant AreConditions(conditions, UpTo(d, r), orders)
      invariant code == Chain(conditions, d.rules[..r])
    {
      var rule := d.rules[r];
      var condition := GenerateRule(d.inputs, rule);
      ghost var order :| IsCondition(condition, EntryMap(d.inputs, rule.inputEntries), order);
      ChainAppend(conditions, d.rules[..r], condition, rule);
      AreMore(conditions, orders, d, r, condition, order);
      assert d.rules[..r + 1] == d.rules[..r] + [rule];
      code := code + IfTokens(condition, rule.outputEntries);
      conditions, orders := conditions + [condition], orders + [order];
    }
    assert d.rules[..|d.rules|] == d.rules;
    var defaultReturn := BuildDefaultReturn(d.outputs);
    code := code + ([KwReturn] + OutTokens(defaultReturn) + [RBrace]);
    assert UpTo(d, |d.rules|) == d;
    assert IsCodeWith(code, d, conditions, orders);
  }

  /** The table with its first `r` rules. */
  function UpTo(d: DecisionTable, r: nat): DecisionTable
    requires r <= |d.rules|
  {
    d.(rules := d.rules[..r])
  }

  lemma AreMore(conditions: seq<seq<Token>>, orders: seq<seq<string>>, d: DecisionTable, r: nat,
                condition: seq<Token>, order: seq<string>)
    requires Indexable(d) && r < |d.rules| && AreConditions(conditions, UpTo(d, r), orders)
    requires IsCondition(condition, EntryMap(d.inputs, d.rules[r].inputEntries), order)
    ensures AreConditions(conditions + [condition], UpTo(d, r + 1), orders + [order])
  {
    var all, v := conditions + [condition], UpTo(d, r + 1);
    forall q | 0 <= q < |v.rules|
      ensures IsCondition(all[q], EntryMap(v.inputs, v.rules[q].inputEntries), (orders + [order])[q])
    {
      if q < r {
        assert UpTo(d, r).rules[q] == v.rules[q];
      }
    }
  }

  lemma {:induction false} ChainAppend(conditions: seq<seq<Token>>, rules: seq<Rule>, condition: seq<Token>, rule: Rule)
    requires |conditions| == |rules|
    ensures Chain(conditions + [condition], rules + [rule])
         == Chain(conditions, rules) + IfTokens(condition, rule.outputEntries)
    decreases |rules|
  {
    if rules == [] {
      assert conditions + [condition] == [condition] && rules + [rule] == [rule];
      assert Chain([], []) == [];
    } else {
      assert (rules + [rule])[1..] == rules[1..] + [rule];
      assert (conditions + [condition])[1..] == conditions[1..] + [condition];
      ChainAppend(conditions[1..], rules[1..], condition, rule);
      Associate(IfTokens(conditions[0], rules[0].outputEntries), Chain(conditions[1..], rules[1..]),
                IfTokens(condition, rule.outputEntries));
    }
  }
}
