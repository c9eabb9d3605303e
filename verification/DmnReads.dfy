/** Which inputs a generated decision function reads: only those that its table
    names. */
module DmnReads {
  import opened Wrappers
  import opened GoStrings
  import opened GoExpr
  import opened GoReturn
  import opened DmnCompiler

  // ----------------------------------------------------------- what is read

  ghost predicate TokenReads(t: Token, keys: set<string>) {
    t.Assert? ==> t.key in keys
  }

  ghost predicate Reads(ts: seq<Token>, keys: set<string>) {
    forall i | 0 <= i < |ts| :: TokenReads(ts[i], keys)
  }

  ghost predicate ExprReads(e: Expr, keys: set<string>) {
    match e
    case Leaf(a) => a.key in keys
    case And(l, r) => ExprReads(l, keys) && ExprReads(r, keys)
    case Or(l, r) => ExprReads(l, keys) && ExprReads(r, keys)
  }

  ghost predicate BodyReads(b: Body, keys: set<string>) {
    match b
    case Return(_) => true
    case If(cond, _, rest) => ExprReads(cond, keys) && BodyReads(rest, keys)
  }

  /** The same values, or the same absence, under the given keys. */
  ghost predicate Agree(a: Inputs, b: Inputs, keys: set<string>) {
    forall k | k in keys :: (k in a <==> k in b) && (k in a ==> a[k] == b[k])
  }

  lemma {:induction false} EvalFrame(e: Expr, keys: set<string>, a: Inputs, b: Inputs)
    requires ExprReads(e, keys) && Agree(a, b, keys)
    ensures Eval(e, a) == Eval(e, b)
  {
    match e
    case Leaf(_) =>
    case And(l, r) =>
      EvalFrame(l, keys, a, b);
      EvalFrame(r, keys, a, b);
    case Or(l, r) =>
      EvalFrame(l, keys, a, b);
      EvalFrame(r, keys, a, b);
  }

  lemma {:induction false} RunFrame(body: Body, keys: set<string>, a: Inputs, b: Inputs)
    requires BodyReads(body, keys) && Agree(a, b, keys)
    ensures Run(body, a) == Run(body, b)
  {
    if body.If? {
      EvalFrame(body.cond, keys, a, b);
      RunFrame(body.rest, keys, a, b);
    }
  }

  // ----------------------------------------------- parsing invents no reads

  ghost predicate ParsedReads(p: Option<Parsed>, keys: set<string>) {
    p.Some? ==> ExprReads(p.value.expr, keys) && Reads(p.value.rest, keys)
  }

  lemma ReadsFrom(ts: seq<Token>, n: nat, keys: set<string>)
    requires Reads(ts, keys) && n <= |ts|
    ensures Reads(ts[n..], keys)
  {
    forall i | 0 <= i < |ts[n..]| ensures TokenReads(ts[n..][i], keys) {
      assert TokenReads(ts[n + i], keys);
    }
  }

  lemma LeafReads(ts: seq<Token>, keys: set<string>)
    requires Reads(ts, keys)
    ensures ParsedReads(ParseLeaf(ts), keys)
  {
    if |ts| >= 2 {
      assert TokenReads(ts[0], keys);
      ReadsFrom(ts, 2, keys);
    }
    if |ts| >= 3 {
      ReadsFrom(ts, 3, keys);
    }
  }

  lemma {:induction false} PrimaryReads(ts: seq<Token>, keys: set<string>)
    requires Reads(ts, keys)
    ensures ParsedReads(ParsePrimary(ts), keys)
    decreases |ts|, 0
  {
    if StartsWith(ts, LParen) {
      ReadsFrom(ts, 1, keys);
      OrReads(ts[1..], keys);
      match ParseOr(ts[1..]) {
        case None =>
        case Some(p) => if StartsWith(p.rest, RParen) { ReadsFrom(p.rest, 1, keys); }
      }
    } else {
      LeafReads(ts, keys);
    }
  }

  lemma {:induction false} AndReads(ts: seq<Token>, keys: set<string>)
    requires Reads(ts, keys)
    ensures ParsedReads(ParseAnd(ts), keys)
    decreases |ts|, 1
  {
    PrimaryReads(ts, keys);
    match ParsePrimary(ts)
    case None =>
    case Some(p) => AndTailReads(p.expr, p.rest, keys);
  }

  lemma {:induction false} AndTailReads(acc: Expr, ts: seq<Token>, keys: set<string>)
    requires ExprReads(acc, keys) && Reads(ts, keys)
    ensures ParsedReads(AndTail(acc, ts), keys)
    decreases |ts|, 1
  {
    if StartsWith(ts, AndAnd) {
      ReadsFrom(ts, 1, keys);
      PrimaryReads(ts[1..], keys);
      match ParsePrimary(ts[1..])
      case None =>
      case Some(p) => AndTailReads(And(acc, p.expr), p.rest, keys);
    }
  }

  lemma {:induction false} OrReads(ts: seq<Token>, keys: set<string>)
    requires Reads(ts, keys)
    ensures ParsedReads(ParseOr(ts), keys)
    decreases |ts|, 2
  {
    AndReads(ts, keys);
    match ParseAnd(ts)
    case None =>
    case Some(p) => OrTailReads(p.expr, p.rest, keys);
  }

  lemma {:induction false} OrTailReads(acc: Expr, ts: seq<Token>, keys: set<string>)
    requires ExprReads(acc, keys) && Reads(ts, keys)
    ensures ParsedReads(OrTail(acc, ts), keys)
    decreases |ts|, 2
  {
    if StartsWith(ts, OrOr) {
      ReadsFrom(ts, 1, keys);
      AndReads(ts[1..], keys);
      match ParseAnd(ts[1..])
      case None =>
      case Some(p) => OrTailReads(Or(acc, p.expr), p.rest, keys);
    }
  }

  lemma {:induction false} OutsRead(ts: seq<Token>, keys: set<string>)
    requires Reads(ts, keys)
    ensures ParseOuts(ts).Some? ==> Reads(ParseOuts(ts).value.rest, keys)
  {
    if ts != [] && ts[0].Out? {
      ReadsFrom(ts, 1, keys);
      if StartsWith(ts[1..], Comma) {
        ReadsFrom(ts, 2, keys);
        OutsRead(ts[2..], keys);
      }
    }
  }

  lemma ReturnReads(ts: seq<Token>, keys: set<string>)
    requires Reads(ts, keys)
    ensures ParseReturn(ts).Some? ==> Reads(ParseReturn(ts).value.rest, keys)
  {
    if StartsWith(ts, KwReturn) {
      ReadsFrom(ts, 1, keys);
      OutsRead(ts[1..], keys);
      match ParseOuts(ts[1..])
      case None =>
      case Some(p) => if StartsWith(p.rest, RBrace) { ReadsFrom(p.rest, 1, keys); }
    }
  }

  lemma {:induction false} ParseBodyReads(ts: seq<Token>, keys: set<string>)
    requires Reads(ts, keys)
    ensures ParseBody(ts).Some? ==> BodyReads(ParseBody(ts).value, keys)
    decreases |ts|
  {
    if StartsWith(ts, KwIf) {
      ReadsFrom(ts, 1, keys);
      OrReads(ts[1..], keys);
      match ParseOr(ts[1..])
      case None =>
      case Some(c) =>
        if StartsWith(c.rest, LBrace) {
          ReadsFrom(c.rest, 1, keys);
          ReturnReads(c.rest[1..], keys);
          match ParseReturn(c.rest[1..])
          case None =>
          case Some(p) => ParseBodyReads(p.rest, keys);
        }
    }
  }

  // ------------------------------------------------------ what is emitted

  lemma ReadsJoin(a: seq<Token>, b: seq<Token>, keys: set<string>)
    requires Reads(a, keys) && Reads(b, keys)
    ensures Reads(a + b, keys)
  {
  }

  lemma {:induction false} JoinReads(parts: seq<seq<Token>>, sep: Token, keys: set<string>)
    requires !sep.Assert? && forall i | 0 <= i < |parts| :: Reads(parts[i], keys)
    ensures Reads(JoinTokens(parts, sep), keys)
  {
    if |parts| > 1 {
      JoinReads(parts[1..], sep, keys);
      ReadsJoin(parts[0], [sep], keys);
      ReadsJoin(parts[0] + [sep], JoinTokens(parts[1..], sep), keys);
    }
  }

  lemma {:induction false} SeasonsRead(key: string, seasons: seq<string>, keys: set<string>)
    requires key in keys
    ensures forall i | 0 <= i < |SeasonTests(key, seasons)| :: Reads(SeasonTests(key, seasons)[i], keys)
  {
    if seasons != [] {
      SeasonsRead(key, seasons[1..], keys);
    }
  }

  lemma StringReads(key: string, value: string, keys: set<string>)
    requires key in keys
    ensures Reads(StringCondition(key, value), keys)
  {
    if Contains(value, ",") {
      SeasonsRead(key, Split(value, ","), keys);
      JoinReads(SeasonTests(key, Split(value, ",")), OrOr, keys);
    }
  }

  predicate IntervalCell(value: string, typeRef: string) {
    Contains(value, "..") && (typeRef == "number" || typeRef == "context")
  }

  /** The input that a cell reads: its column's label, or for an interval cell the name
      in a label of the form `{name: expression}`. */
  function CellKey(key: string, value: string, typeRef: string): string {
    if IntervalCell(value, typeRef) then IntervalKey(key) else key
  }

  /** The same for an entry of the conditions map, with the type behind a bar. */
  function EntryKey(key: string, valueType: string): string {
    var parts := Split(valueType, "|");
    if |parts| < 2 then key else CellKey(key, parts[0], parts[1])
  }

  lemma IntervalReads(key: string, value: string, keys: set<string>)
    requires IntervalKey(key) in keys && |value| >= 2
    ensures Reads(IntervalCondition(key, value), keys)
  {
  }

  lemma TimeIntervalReads(key: string, from: Civil, to: Civil, keys: set<string>)
    requires key in keys
    ensures Reads(TimeInterval(key, from, to), keys)
  {
  }

  lemma TimeReads(key: string, value: string, keys: set<string>)
    requires key in keys
    ensures Reads(TimeCondition(key, value), keys)
  {
    if Contains(value, "..") {
      var parts := Split(value, "..");
      if |parts| >= 2 {
        TimeIntervalReads(key, ExtractTime(TrimPrefix(TrimSpace(parts[0]), "[")),
                          ExtractTime(TrimSuffix(TrimSpace(parts[1]), "]")), keys);
      }
    }
  }

  lemma CellReads(key: string, value: string, typeRef: string, keys: set<string>)
    requires CellKey(key, value, typeRef) in keys
    ensures Reads(CellCondition(key, value, typeRef), keys)
  {
    if typeRef == "dateTime" {
      TimeReads(key, value, keys);
    } else if typeRef == "string" {
      StringReads(key, value, keys);
    } else if Contains(value, "..") && (typeRef == "number" || typeRef == "context") {
      IntervalReads(key, value, keys);
    }
  }

  lemma {:induction false} ConditionsRead(order: seq<string>, m: map<string, string>, keys: set<string>)
    requires forall i | 0 <= i < |order| :: order[i] in m && EntryKey(order[i], m[order[i]]) in keys
    ensures forall i | 0 <= i < |Conditions(order, m)| :: Reads(Conditions(order, m)[i], keys)
    decreases |order|
  {
    if order != [] {
      ConditionsRead(order[1..], m, keys);
      var parts := Split(m[order[0]], "|");
      if |parts| >= 2 {
        CellReads(order[0], parts[0], parts[1], keys);
      }
    }
  }

  lemma {:induction false} ListReads(pieces: seq<string>, keys: set<string>)
    ensures Reads(ListTokens(pieces), keys)
  {
    if |pieces| > 1 {
      ListReads(pieces[1..], keys);
    }
  }

  lemma OutTokensRead(texts: seq<string>, keys: set<string>)
    ensures Reads(OutTokens(texts), keys)
  {
    ListReads(Pieces(Join(texts, ", ")), keys);
  }

  lemma {:induction false} ChainReads(conditions: seq<seq<Token>>, rules: seq<Rule>, keys: set<string>)
    requires |conditions| == |rules| && forall r | 0 <= r < |rules| :: Reads(conditions[r], keys)
    ensures Reads(Chain(conditions, rules), keys)
    decreases |rules|
  {
    if rules != [] {
      ChainReads(conditions[1..], rules[1..], keys);
      OutTokensRead(rules[0].outputEntries, keys);
    }
  }

  /** The keys of all cells of one rule. */
  ghost predicate RuleCovered(inputs: seq<Input>, entries: seq<string>, keys: set<string>)
    requires |entries| <= |inputs|
  {
    forall i | 0 <= i < |entries| :: EntryKey(inputs[i].name, entries[i] + "|" + inputs[i].typeRef) in keys
  }

  ghost predicate Covers(d: DecisionTable, keys: set<string>)
    requires Indexable(d)
  {
    forall r | 0 <= r < |d.rules| :: RuleCovered(d.inputs, d.rules[r].inputEntries, keys)
  }

  lemma {:induction false} EntryMapKeys(inputs: seq<Input>, entries: seq<string>, key: string)
    requires |entries| <= |inputs| && key in EntryMap(inputs, entries)
    ensures exists i :: 0 <= i < |entries| && inputs[i].name == key
                        && EntryMap(inputs, entries)[key] == entries[i] + "|" + inputs[i].typeRef
    decreases |entries|
  {
    if entries != [] {
      var n := |entries| - 1;
      if key != inputs[n].name {
        EntryMapKeys(inputs, entries[..n], key);
        var i :| 0 <= i < n && inputs[i].name == key
              && EntryMap(inputs, entries[..n])[key] == entries[..n][i] + "|" + inputs[i].typeRef;
        assert entries[..n][i] == entries[i];
      }
    }
  }

  lemma ConditionReads(inputs: seq<Input>, entries: seq<string>, condition: seq<Token>, order: seq<string>,
                       keys: set<string>)
    requires |entries| <= |inputs| && IsCondition(condition, EntryMap(inputs, entries), order)
    requires RuleCovered(inputs, entries, keys)
    ensures Reads(condition, keys)
  {
    var m := EntryMap(inputs, entries);
    forall i | 0 <= i < |order| ensures order[i] in m && EntryKey(order[i], m[order[i]]) in keys {
      EntryMapKeys(inputs, entries, order[i]);
    }
    ConditionsRead(order, m, keys);
    JoinReads(Conditions(order, m), AndAnd, keys);
  }

  /** For every table, whatever its cells hold, the generated conditions read only inputs
      that the table names: the labels, and in interval cells the names inside them. */
  lemma CompiledReadsLabels(d: DecisionTable, code: seq<Token>, keys: set<string>)
    requires IsCodeOf(code, d) && Covers(d, keys)
    ensures Reads(code, keys)
  {
    var conditions, orders :| IsCodeWith(code, d, conditions, orders);
    forall r | 0 <= r < |d.rules| ensures Reads(conditions[r], keys) {
      ConditionReads(d.inputs, d.rules[r].inputEntries, conditions[r], orders[r], keys);
    }
    ChainReads(conditions, d.rules, keys);
    OutTokensRead(DefaultReturn(d.outputs), keys);
    ReadsJoin(Chain(conditions, d.rules), [KwReturn] + OutTokens(DefaultReturn(d.outputs)) + [RBrace], keys);
  }

  /** So two inputs maps that agree on those names get the same decision, or both panic. */
  lemma SameDecision(d: DecisionTable, file: GoFile, keys: set<string>, a: Inputs, b: Inputs)
    requires IsFileOf(file, d) && Covers(d, keys) && Agree(a, b, keys)
    ensures Execute(file, a) == Execute(file, b)
  {
    CompiledReadsLabels(d, file.body, keys);
    ParseBodyReads(file.body, keys);
    match ParseBody(file.body)
    case None =>
    case Some(body) => RunFrame(body, keys, a, b);
  }
}
