/** The generator: from the parsed policies to the handlers and to the cases of the
    `handleFunction` switch. The text of the single handlers is not modelled; what
    each is generated from is. */
module AlfaGenerator {
  import opened Wrappers
  import opened Identifiers
  import opened Ordering
  import opened AlfaParser
  import opened AlfaRender
  import AlfaInverse
  import Splice
  import Feel
  import Condition
  import Access

  datatype Kind = Write | Decision | DecisionWithAggregation(calls: seq<Pair>)

  /** What one generated handler is made from. */
  datatype Handler = Handler(name: string, kind: Kind, condition: string, resource: string)

  datatype Generated = Generated(handlers: seq<Handler>, cases: seq<string>)

  function Resource(p: Policy, key: string): string {
    if key in p.resources then p.resources[key] else ""
  }

  predicate Handled(typ: string) {
    typ == "write" || typ == "decisionwithaggregation" || typ == "decision"
  }

  /** The policy gives rise to a handler for the case `key`. */
  predicate Handles(p: Policy, key: string) {
    p.rules != [] && Handled(ToLower(Resource(p, "type"))) && Resource(p, "name") == key
  }

  /** The obligation is `AggregationSpec` if there is one, or else the first by name. */
  ghost predicate IsPicked(obligations: map<string, map<string, string>>, name: string) {
    && name in obligations
    && (name == "AggregationSpec"
        || ("AggregationSpec" !in obligations && forall k | k in obligations :: k == name || Below(name, k)))
  }

  lemma PickedUnique(obligations: map<string, map<string, string>>, a: string, b: string)
    requires IsPicked(obligations, a) && IsPicked(obligations, b)
    ensures a == b
  {
    if a != b && "AggregationSpec" !in obligations {
      BelowStrict(a, b);
      assert false;
    }
  }

  method PickAggregationObligation(obligations: map<string, map<string, string>>) returns (r: Option<string>)
    ensures r == None <==> obligations == map[]
    ensures r.Some? ==> IsPicked(obligations, r.value)
  {
    if obligations == map[] {
      return None;
    }
    if "AggregationSpec" in obligations {
      return Some("AggregationSpec");
    }
    var names := SortKeys(obligations.Keys);
    var k :| k in obligations;
    assert k in names;
    forall k | k in obligations ensures k == names[0] || Below(names[0], k) {
      assert k in names;
    }
    assert names[0] in names;
    r := Some(names[0]);
  }

  /** The aggregations of a handler: one call for each parameter, sorted by parameter. */
  ghost predicate IsCalls(params: map<string, string>, calls: seq<Pair>) {
    && (forall i, j | 0 <= i < j < |calls| :: Below(calls[i].key, calls[j].key))
    && (forall p: Pair :: p in calls <==> p.key in params && params[p.key] == p.value)
  }

  method AggregationCalls(params: map<string, string>) returns (calls: seq<Pair>)
    ensures IsCalls(params, calls)
  {
    var names := SortKeys(params.Keys);
    calls := [];
    for i := 0 to |names|
      invariant |calls| == i
      invariant forall j | 0 <= j < i :: names[j] in params && calls[j] == Pair(names[j], params[names[j]])
    {
      assert names[i] in names;
      calls := calls + [Pair(names[i], params[names[i]])];
    }
    forall p: Pair ensures p in calls <==> p.key in params && params[p.key] == p.value {
      if p.key in params && params[p.key] == p.value {
        assert p.key in names;
        var j :| 0 <= j < |names| && names[j] == p.key;
        assert calls[j] == p;
      }
    }
  }

  /** Every policy that has a rule and is to be decided with aggregation has an obligation. */
  predicate Obligated(p: Policy) {
    p.rules != [] && ToLower(Resource(p, "type")) == "decisionwithaggregation" ==> p.obligations != map[]
  }

  predicate Distinct(keys: seq<string>) {
    forall i, j | 0 <= i < j < |keys| :: keys[i] != keys[j]
  }

  /** A handler is one of those the policy asks for. */
  ghost predicate Fits(h: Handler, p: Policy, r: Rule) {
    && h.name == Resource(p, "name")
    && h.condition == Feel.ToFeel(r.condition)
    && match ToLower(Resource(p, "type"))
       case "write" => h.kind == Write && h.resource == Resource(p, "struct")
       case "decision" => h.kind == Decision && h.resource == Resource(p, "struct") + "Light"
       case "decisionwithaggregation" =>
         && h.kind.DecisionWithAggregation? && h.resource == Resource(p, "struct")
         && (exists o :: IsPicked(p.obligations, o) && IsCalls(p.obligations[o], h.kind.calls))
       case _ => false
  }

  predicate AddedBy(policies: seq<Policy>, key: string) {
    exists i | 0 <= i < |policies| :: Handles(policies[i], key)
  }

  /** The rules that get a handler, in order. */
  function Sources(policies: seq<Policy>): seq<(Policy, Rule)> {
    if policies == [] then []
    else Sources(policies[..|policies| - 1]) + SourcesOf(policies[|policies| - 1], policies[|policies| - 1].rules)
  }

  function SourcesOf(p: Policy, rules: seq<Rule>): (r: seq<(Policy, Rule)>)
    ensures r != [] <==> rules != [] && Handled(ToLower(Resource(p, "type")))
  {
    if rules == [] || !Handled(ToLower(Resource(p, "type"))) then []
    else SourcesOf(p, rules[..|rules| - 1]) + [(p, rules[|rules| - 1])]
  }

  ghost predicate AllFit(handlers: seq<Handler>, sources: seq<(Policy, Rule)>) {
    |handlers| == |sources| && forall i | 0 <= i < |handlers| :: Fits(handlers[i], sources[i].0, sources[i].1)
  }

  /** The handler of one rule, or nothing when an obligation is missing. */
  method HandlerOf(p: Policy, r: Rule) returns (h: Option<Handler>)
    requires Handled(ToLower(Resource(p, "type")))
    ensures h == None <==> ToLower(Resource(p, "type")) == "decisionwithaggregation" && p.obligations == map[]
    ensures h.Some? ==> Fits(h.value, p, r)
  {
    var name, typ, struct := Resource(p, "name"), ToLower(Resource(p, "type")), Resource(p, "struct");
    var formula := Feel.TranslateConditionToFEEL(r.condition);
    if typ == "write" {
      return Some(Handler(name, Write, formula, struct));
    }
    if typ == "decisionwithaggregation" {
      var o := PickAggregationObligation(p.obligations);
      if o == None {
        return None;
      }
      var calls := AggregationCalls(p.obligations[o.value]);
      return Some(Handler(name, DecisionWithAggregation(calls), formula, struct));
    }
    return Some(Handler(name, Decision, formula, struct + "Light"));
  }

  /** The generation loop. It fails exactly when a policy decided with aggregation
      has no obligation; otherwise there is one handler for each rule, in order, and
      one case for each name, without repetition. */
  method Generate(policies: seq<Policy>) returns (r: Option<Generated>)
    ensures r == None <==> exists i :: 0 <= i < |policies| && !Obligated(policies[i])
    ensures r.Some? ==> AllFit(r.value.handlers, Sources(policies)) && Distinct(r.value.cases)
    ensures r.Some? ==> forall key :: key in r.value.cases <==> key != "" && AddedBy(policies, key)
  {
    var handlers: seq<Handler>, cases: seq<string> := [], [];
    for i := 0 to |policies|
      invariant forall j | 0 <= j < i :: Obligated(policies[j])
      invariant AllFit(handlers, Sources(policies[..i])) && Distinct(cases)
      invariant forall key :: key in cases <==> key != "" && AddedBy(policies[..i], key)
    {
      var ok;
      ok, handlers, cases := GeneratePolicy(policies[i], handlers, cases, Sources(policies[..i]));
      if !ok {
        return None;
      }
      assert policies[..i + 1][..i] == policies[..i];
      forall key ensures AddedBy(policies[..i + 1], key) <==> AddedBy(policies[..i], key) || Handles(policies[i], key) {
        if AddedBy(policies[..i], key) {
          var j :| 0 <= j < i && Handles(policies[..i][j], key);
          assert Handles(policies[..i + 1][j], key);
        }
        if Handles(policies[i], key) {
          assert Handles(policies[..i + 1][i], key);
        }
      }
    }
    assert policies[..|policies|] == policies;
    r := Some(Generated(handlers, cases));
  }

  /** The policy asks for a case under the key as soon as it has a rule. */
  predicate Names(p: Policy, key: string) {
    Handled(ToLower(Resource(p, "type"))) && key != "" && key == Resource(p, "name")
  }

  lemma SourcesGrow(p: Policy, i: nat)
    requires i < |p.rules| && Handled(ToLower(Resource(p, "type")))
    ensures SourcesOf(p, p.rules[..i + 1]) == SourcesOf(p, p.rules[..i]) + [(p, p.rules[i])]
  {
    assert p.rules[..i + 1][..i] == p.rules[..i];
  }

  lemma FitGrows(handlers: seq<Handler>, sources: seq<(Policy, Rule)>, more: seq<(Policy, Rule)>, h: Handler, p: Policy,
                 r: Rule)
    requires AllFit(handlers, sources + more) && Fits(h, p, r)
    ensures AllFit(handlers + [h], sources + (more + [(p, r)]))
  {
    var all := sources + (more + [(p, r)]);
    assert all == (sources + more) + [(p, r)];
  }

  /** A name gets one case, however many rules it has. */
  method AddCase(cases: seq<string>, name: string) returns (r: seq<string>)
    requires Distinct(cases)
    ensures Distinct(r)
    ensures forall key :: key in r <==> key in cases || (key != "" && key == name)
  {
    r := cases;
    if name != "" && name !in cases {
      r := cases + [name];
    }
  }

  method GeneratePolicy(p: Policy, handlers: seq<Handler>, cases: seq<string>, ghost sources: seq<(Policy, Rule)>)
    returns (ok: bool, handlers': seq<Handler>, cases': seq<string>)
    requires AllFit(handlers, sources) && Distinct(cases)
    ensures ok <==> Obligated(p)
    ensures ok ==> AllFit(handlers', sources + SourcesOf(p, p.rules)) && Distinct(cases')
    ensures ok ==> forall key :: key in cases' <==> key in cases || (key != "" && Handles(p, key))
  {
    ok, handlers', cases' := true, handlers, cases;
    var name := Resource(p, "name");
    assert sources + [] == sources;
    for i := 0 to |p.rules|
      invariant i > 0 && ToLower(Resource(p, "type")) == "decisionwithaggregation" ==> p.obligations != map[]
      invariant AllFit(handlers', sources + SourcesOf(p, p.rules[..i])) && Distinct(cases')
      invariant forall key :: key in cases' <==> key in cases || (i > 0 && Names(p, key))
    {
      if Handled(ToLower(Resource(p, "type"))) {
        var h := HandlerOf(p, p.rules[i]);
        if h == None {
          return false, handlers', cases';
        }
        SourcesGrow(p, i);
        FitGrows(handlers', sources, SourcesOf(p, p.rules[..i]), h.value, p, p.rules[i]);
        handlers' := handlers' + [h.value];
        cases' := AddCase(cases', name);
      }
    }
    assert p.rules[..|p.rules|] == p.rules;
  }

  // ------------------------------------------------ from ALFA text to the switch

  lemma {:induction false} TypedKeepsName(resources: map<string, string>, rs: seq<RuleAst>)
    requires "name" in resources
    ensures var t := TypedBy(resources, rs); "name" in t && t["name"] == resources["name"]
    decreases |rs|
  {
    if rs != [] {
      TypedKeepsName(Typed(resources, rs[0].name), rs[1..]);
    }
  }

  lemma {:induction false} BuiltNames(ps: seq<PolicyAst>, named: map<string, string>, key: string)
    requires AddedBy(BuildPolicies(ps, named), key)
    ensures exists i :: 0 <= i < |ps| && ps[i].action == key
  {
    var built := BuildPolicies(ps, named);
    var i :| 0 <= i < |built| && Handles(built[i], key);
    AlfaInverse.BuiltEach(ps, named);
    TypedKeepsName(Targeted(map[], ps[i].action, ps[i].args), ps[i].rules);
    assert ps[i].action == key;
  }

  /** Putting `fn` in changes nothing the second time, and replaces whatever an
      earlier generation had put there. */
  predicate Settles(src: string, fn: string, earlier: string) {
    var once := Splice.Put(Splice.SIGNATURE, src, fn);
    var before := Splice.Put(Splice.SIGNATURE, src, earlier);
    && once.Ok? && Splice.Put(Splice.SIGNATURE, once.value, fn) == once
    && before.Ok? && Splice.Put(Splice.SIGNATURE, before.value, fn) == once
  }

  lemma HandlersSettle(src: string, fn: string, earlier: string)
    requires Splice.Locate(Splice.SIGNATURE, src).Ok?
    requires Splice.IsHandler(Splice.SIGNATURE, fn) && Splice.IsHandler(Splice.SIGNATURE, earlier)
    ensures Settles(src, fn, earlier)
  {
    Splice.SignatureQuiet();
    Splice.PutTwice(Splice.SIGNATURE, src, fn);
    Splice.PutPut(Splice.SIGNATURE, src, earlier, fn);
  }

  /** The switch generated from `cases` settles in every receiver that has a handler. */
  ghost predicate SwitchSettles(cases: seq<string>) {
    forall src, earlier | Splice.Locate(Splice.SIGNATURE, src).Ok? && Splice.IsHandler(Splice.SIGNATURE, earlier) ::
      Settles(src, Splice.HandlerText(cases), earlier)
  }

  lemma NamesSettle(cases: seq<string>)
    requires forall i | 0 <= i < |cases| :: Splice.Name(cases[i])
    ensures SwitchSettles(cases)
  {
    Splice.GeneratedIsHandler(cases);
    forall src, earlier | Splice.Locate(Splice.SIGNATURE, src).Ok? && Splice.IsHandler(Splice.SIGNATURE, earlier)
      ensures Settles(src, Splice.HandlerText(cases), earlier)
    {
      HandlersSettle(src, Splice.HandlerText(cases), earlier);
    }
  }

  /** From the ALFA text to the receivers' sources: for every well-formed policy set,
      however it is laid out, the switch generated from what the parser read settles
      in every receiver. */
  lemma RegenerationIsStable(ps: PolicySetAst, lines: seq<string>, cases: seq<string>)
    requires SetWf(ps) && Clean(lines) == Render(ps)
    requires Lines(START, lines).Ok? ==> forall key | key in cases :: AddedBy(Lines(START, lines).value.policies, key)
    ensures Lines(START, lines).Ok? && SwitchSettles(cases)
  {
    AlfaInverse.ParseInvertsRender(ps, lines);
    CasesAreNames(ps, cases);
    NamesSettle(cases);
  }

  lemma CasesAreNames(ps: PolicySetAst, cases: seq<string>)
    requires SetWf(ps) && forall key | key in cases :: AddedBy(Rebuilt(ps).policies, key)
    ensures forall i | 0 <= i < |cases| :: Splice.Name(cases[i])
  {
    forall i | 0 <= i < |cases| ensures Splice.Name(cases[i]) {
      assert cases[i] in cases;
      var named := DeclareAll(START.(namespace := ps.namespace, importSeen := true), ps.decls).named;
      BuiltNames(ps.policies, named, cases[i]);
      var j :| 0 <= j < |ps.policies| && ps.policies[j].action == cases[i];
      assert PolicyWf(ps.policies[j]);
      IdentIsName(cases[i]);
    }
  }

  lemma IdentIsName(s: string)
    requires Ident(s)
    ensures Splice.Name(s)
  {
  }

  /** What a generated handler decides: the meaning of the one condition of its rule,
      given in place or by name. */
  lemma HandlerDecides(r: RuleAst, named: map<string, string>, c: Condition.Cond, gaps: seq<nat>,
                       env: Condition.Attributes)
    requires |r.conditions| == 1 && Condition.CondWf(c) && Condition.GapsWf(Condition.CondToks(c), gaps)
    requires ExpandCondition(r.conditions[0], named) == Condition.Spell(Condition.ALFA, Condition.CondToks(c), gaps)
    ensures Access.CheckCallability(Feel.InContext(Feel.ToFeel(BuildRule(r, named).condition)), env)
         == Some(Condition.CondHolds(c, env) == Some(true))
  {
    var text := Condition.Spell(Condition.ALFA, Condition.CondToks(c), gaps);
    assert Expanded(r.conditions, named) == text + " " + Expanded(r.conditions[1..], named);
    assert Expanded(r.conditions[1..], named) == "";
    assert "" + (text + Access.Semicolon(false)) + " " == text + " " + "";
    Access.AccessPreserved(c, gaps, "", false, " ", env);
  }
}
