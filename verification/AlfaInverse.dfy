/** Parsing inverts rendering. The induction over the rendered lines only uses what
    the parser does with each kind of line, so it is carried out for any line
    feeder with that behaviour and then applied to the parser's. */
module AlfaInverse {
  import opened Wrappers
  import opened GoStrings
  import opened Identifiers
  import opened AlfaParser
  import opened AlfaText
  import opened AlfaRender

  type Feeder = (State, string) -> Option<State>

  function Through(f: Feeder, s: State, lines: seq<string>): Option<State>
    decreases |lines|
  {
    if lines == [] then Some(s)
    else
      match f(s, lines[0])
      case None => None
      case Some(v) => Through(f, v, lines[1..])
  }

  lemma {:induction false} ThroughConcat(f: Feeder, s: State, a: seq<string>, v: State, b: seq<string>)
    requires Through(f, s, a) == Some(v)
    ensures Through(f, s, a + b) == Through(f, v, b)
    decreases |a|
  {
    if a == [] {
      assert a + b == b;
    } else {
      assert (a + b)[1..] == a[1..] + b;
      ThroughConcat(f, f(s, a[0]).value, a[1..], v, b);
    }
  }

  lemma ThroughOne(f: Feeder, s: State, line: string, v: State)
    requires f(s, line) == Some(v)
    ensures Through(f, s, [line]) == Some(v)
  {
    assert [line][1..] == [];
  }

  // ----------------------------------------------------------- the behaviour

  /** How the name of a rule changes the resources of its policy. */
  type Typing = (map<string, string>, string) -> map<string, string>

  ghost predicate TakesRules(f: Feeder, t: Typing) {
    && (forall s, q, name | Idle(s) && Ident(name) ::
          f(Inside(s, q), "rule " + name + " {")
          == Some(InsideRule(s, q.(resources := t(q.resources, name)), Rule(name, "", ""))))
    && (forall s, q, r, permit | Idle(s) ::
          f(InsideRule(s, q, r), Effect(permit)) == Some(InsideRule(s, q, r.(action := Effect(permit)))))
    && (forall s, q, r | Idle(s) :: f(InsideRule(s, q, r), "}") == Some(Inside(s, q.(rules := q.rules + [r]))))
  }

  ghost predicate TakesConditions(f: Feeder) {
    forall s, q, r, c | Idle(s) && ConditionWf(c) ::
      f(InsideRule(s, q, r), "condition " + c)
          == Some(InsideRule(s, q, WithCondition(r, ExpandCondition(c, s.named) + " ")))
  }

  function Effect(permit: bool): string {
    if permit then "permit" else "deny"
  }

  ghost predicate TakesObligations(f: Feeder) {
    && (forall s, q, sym | Idle(s) && Ident(sym) ::
          f(InsidePermit(s, q), "obligation " + sym + " {") == Some(InsideObligation(s, q, sym, Params(q, sym))))
    && (forall s, q, sym, params, p | Idle(s) && ParamWf(p) ::
          f(InsideObligation(s, q, sym, params), AssignmentText(p.key, p.value))
          == Some(InsideObligation(s, q, sym, params[p.key := p.value])))
    && (forall s, q, sym, params | Idle(s) ::
          f(InsideObligation(s, q, sym, params), "}")
              == Some(InsidePermit(s, q.(obligations := q.obligations[sym := params]))))
  }

  ghost predicate TakesPolicies(f: Feeder) {
    && (forall s, name | Idle(s) && Safe(s) && Ident(name) ::
          f(s, "policy " + name + " {") == Some(Inside(s, Policy(name, "", map[], [], map[]))))
    && (forall s, q, action, args | Idle(s) && Ident(action) && Idents(args) ::
          f(Inside(s, q), "target clause " + TargetText(action, args))
          == Some(Inside(s, q.(target := TargetText(action, args), resources := Targeted(q.resources, action, args)))))
    && (forall s, q | Idle(s) :: f(Inside(s, q), "apply denyUnlessPermit") == Some(Inside(s, q)))
    && (forall s, q | Idle(s) :: f(Inside(s, q), "on permit {") == Some(InsidePermit(s, q)))
    && (forall s, q | Idle(s) :: f(InsidePermit(s, q), "}") == Some(Inside(s, q)))
    && (forall s, q | Idle(s) :: f(Inside(s, q), "}") == Some(s.(policies := s.policies + [q])))
  }

  ghost predicate TakesDecls(f: Feeder) {
    && (forall s, n | Idle(s) && Safe(s) && Ident(n) :: f(s, "namespace " + n + " {") == Some(s.(namespace := n)))
    && (forall s | Idle(s) && Safe(s) :: f(s, MANDATORY_IMPORT) == Some(s.(importSeen := true)))
    && (forall s, d | Idle(s) && Safe(s) && DeclWf(d) :: f(s, DeclLine(d)) == Some(Declare(s, d)))
    && (forall s | Idle(s) && Safe(s) :: f(s, "}") == Some(s))
  }

  // --------------------------------------------------------------- rules

  lemma ConsThrough(f: Feeder, s: State, line: string, v: State, rest: seq<string>)
    requires f(s, line) == Some(v)
    ensures Through(f, s, [line] + rest) == Through(f, v, rest)
  {
    assert ([line] + rest)[1..] == rest;
  }

  lemma {:induction false} ConditionsThrough(f: Feeder, at: Rule -> State, named: map<string, string>, r: Rule,
                                             cs: seq<string>)
    requires forall r, c | ConditionWf(c) ::
        f(at(r), "condition " + c) == Some(at(WithCondition(r, ExpandCondition(c, named) + " ")))
    requires forall i | 0 <= i < |cs| :: ConditionWf(cs[i])
    ensures Through(f, at(r), ConditionLines(cs)) == Some(at(WithCondition(r, Expanded(cs, named))))
    decreases |cs|
  {
    if cs == [] {
      assert r.condition + "" == r.condition;
    } else {
      var more, rest := ExpandCondition(cs[0], named) + " ", Expanded(cs[1..], named);
      var next := WithCondition(r, more);
      ConditionsThrough(f, at, named, next, cs[1..]);
      ConsThrough(f, at(r), "condition " + cs[0], at(next), ConditionLines(cs[1..]));
      assert r.condition + more + rest == r.condition + (more + rest);
      assert WithCondition(next, rest) == WithCondition(r, more + rest);
    }
  }

  lemma RuleConditionsThrough(f: Feeder, s: State, q: Policy, r: Rule, cs: seq<string>)
    requires TakesConditions(f) && Idle(s) && forall i | 0 <= i < |cs| :: ConditionWf(cs[i])
    ensures Through(f, InsideRule(s, q, r), ConditionLines(cs))
         == Some(InsideRule(s, q, WithCondition(r, Expanded(cs, s.named))))
  {
    ConditionsThrough(f, r => InsideRule(s, q, r), s.named, r, cs);
  }

  /** A policy after one more rule. */
  function WithRule(t: Typing, q: Policy, r: RuleAst, named: map<string, string>): Policy {
    q.(resources := t(q.resources, r.name), rules := q.rules + [BuildRule(r, named)])
  }

  lemma RuleThrough(f: Feeder, t: Typing, s: State, q: Policy, r: RuleAst)
    requires TakesRules(f, t) && TakesConditions(f) && Idle(s) && RuleWf(r)
    ensures Through(f, Inside(s, q), RuleLines(r)) == Some(Inside(s, WithRule(t, q, r, s.named)))
  {
    var q' := q.(resources := t(q.resources, r.name));
    var begun := Rule(r.name, "", "");
    var effected := begun.(action := Effect(r.permit));
    var done := WithCondition(effected, Expanded(r.conditions, s.named));
    assert "" + Expanded(r.conditions, s.named) == Expanded(r.conditions, s.named);
    assert done == BuildRule(r, s.named);
    var head := ["rule " + r.name + " {", Effect(r.permit)];
    ThroughOne(f, Inside(s, q), "rule " + r.name + " {", InsideRule(s, q', begun));
    ThroughOne(f, InsideRule(s, q', begun), Effect(r.permit), InsideRule(s, q', effected));
    ThroughConcat(f, Inside(s, q), ["rule " + r.name + " {"], InsideRule(s, q', begun), [Effect(r.permit)]);
    assert head == ["rule " + r.name + " {"] + [Effect(r.permit)];
    RuleConditionsThrough(f, s, q', effected, r.conditions);
    ThroughConcat(f, Inside(s, q), head, InsideRule(s, q', effected), ConditionLines(r.conditions));
    ThroughOne(f, InsideRule(s, q', done), "}", Inside(s, WithRule(t, q, r, s.named)));
    ThroughConcat(f, Inside(s, q), head + ConditionLines(r.conditions), InsideRule(s, q', done), ["}"]);
  }

  function WithRules(t: Typing, q: Policy, rs: seq<RuleAst>, named: map<string, string>): Policy
    decreases |rs|
  {
    if rs == [] then q else WithRules(t, WithRule(t, q, rs[0], named), rs[1..], named)
  }

  lemma {:induction false} RulesThrough(f: Feeder, t: Typing, s: State, q: Policy, rs: seq<RuleAst>)
    requires TakesRules(f, t) && TakesConditions(f) && Idle(s) && forall i | 0 <= i < |rs| :: RuleWf(rs[i])
    ensures Through(f, Inside(s, q), RulesLines(rs)) == Some(Inside(s, WithRules(t, q, rs, s.named)))
    decreases |rs|
  {
    if rs != [] {
      RuleThrough(f, t, s, q, rs[0]);
      RulesThrough(f, t, s, WithRule(t, q, rs[0], s.named), rs[1..]);
      ThroughConcat(f, Inside(s, q), RuleLines(rs[0]), Inside(s, WithRule(t, q, rs[0], s.named)), RulesLines(rs[1..]));
    }
  }

  lemma {:induction false} RulesBuilt(t: Typing, q: Policy, rs: seq<RuleAst>, named: map<string, string>)
    ensures WithRules(t, q, rs, named).rules == q.rules + BuildRules(rs, named)
    decreases |rs|
  {
    if rs == [] {
      assert q.rules + [] == q.rules;
    } else {
      RulesBuilt(t, WithRule(t, q, rs[0], named), rs[1..], named);
      assert q.rules + [BuildRule(rs[0], named)] + BuildRules(rs[1..], named)
          == q.rules + ([BuildRule(rs[0], named)] + BuildRules(rs[1..], named));
    }
  }

  function TypedWith(t: Typing, resources: map<string, string>, rs: seq<RuleAst>): map<string, string>
    decreases |rs|
  {
    if rs == [] then resources else TypedWith(t, t(resources, rs[0].name), rs[1..])
  }

  lemma {:induction false} RulesTyped(t: Typing, q: Policy, rs: seq<RuleAst>, named: map<string, string>)
    ensures var r := WithRules(t, q, rs, named);
            && r.resources == TypedWith(t, q.resources, rs)
            && r.name == q.name && r.target == q.target && r.obligations == q.obligations
    decreases |rs|
  {
    if rs != [] {
      RulesTyped(t, WithRule(t, q, rs[0], named), rs[1..], named);
    }
  }

  // ---------------------------------------------------------- obligations

  lemma {:induction false} ParamsThrough(f: Feeder, s: State, q: Policy, sym: string, params: map<string, string>,
                                         ps: seq<Pair>)
    requires TakesObligations(f) && Idle(s) && forall i | 0 <= i < |ps| :: ParamWf(ps[i])
    ensures Through(f, InsideObligation(s, q, sym, params), ParamLines(ps))
         == Some(InsideObligation(s, q, sym, Assigned(params, ps)))
    decreases |ps|
  {
    if ps != [] {
      ParamsThrough(f, s, q, sym, params[ps[0].key := ps[0].value], ps[1..]);
      assert ParamLines(ps)[1..] == ParamLines(ps[1..]);
    }
  }

  function WithObligation(q: Policy, o: ObligationAst): Policy {
    q.(obligations := q.obligations[o.sym := Assigned(Params(q, o.sym), o.params)])
  }

  lemma ObligationThrough(f: Feeder, s: State, q: Policy, o: ObligationAst)
    requires TakesObligations(f) && Idle(s) && ObligationWf(o)
    ensures Through(f, InsidePermit(s, q), ObligationLines(o)) == Some(InsidePermit(s, WithObligation(q, o)))
  {
    var first, all := Params(q, o.sym), Assigned(Params(q, o.sym), o.params);
    var head := ["obligation " + o.sym + " {"];
    ThroughOne(f, InsidePermit(s, q), "obligation " + o.sym + " {", InsideObligation(s, q, o.sym, first));
    ParamsThrough(f, s, q, o.sym, first, o.params);
    ThroughConcat(f, InsidePermit(s, q), head, InsideObligation(s, q, o.sym, first), ParamLines(o.params));
    ThroughOne(f, InsideObligation(s, q, o.sym, all), "}", InsidePermit(s, WithObligation(q, o)));
    ThroughConcat(f, InsidePermit(s, q), head + ParamLines(o.params), InsideObligation(s, q, o.sym, all), ["}"]);
  }

  lemma {:induction false} ObligationsThrough(f: Feeder, s: State, q: Policy, os: seq<ObligationAst>)
    requires TakesObligations(f) && Idle(s) && forall i | 0 <= i < |os| :: ObligationWf(os[i])
    ensures Through(f, InsidePermit(s, q), ObligationsLines(os))
         == Some(InsidePermit(s, q.(obligations := Obliged(q.obligations, os))))
    decreases |os|
  {
    if os != [] {
      var q' := WithObligation(q, os[0]);
      ObligationThrough(f, s, q, os[0]);
      ObligationsThrough(f, s, q', os[1..]);
      ThroughConcat(f, InsidePermit(s, q), ObligationLines(os[0]), InsidePermit(s, q'), ObligationsLines(os[1..]));
    }
  }

  lemma PermitThrough(f: Feeder, s: State, q: Policy, os: seq<ObligationAst>)
    requires TakesObligations(f) && TakesPolicies(f) && Idle(s) && forall i | 0 <= i < |os| :: ObligationWf(os[i])
    ensures Through(f, Inside(s, q), ["on permit {"] + ObligationsLines(os) + ["}"])
         == Some(Inside(s, q.(obligations := Obliged(q.obligations, os))))
  {
    var q' := q.(obligations := Obliged(q.obligations, os));
    ThroughOne(f, Inside(s, q), "on permit {", InsidePermit(s, q));
    ObligationsThrough(f, s, q, os);
    ThroughConcat(f, Inside(s, q), ["on permit {"], InsidePermit(s, q), ObligationsLines(os));
    ThroughOne(f, InsidePermit(s, q'), "}", Inside(s, q'));
    ThroughConcat(f, Inside(s, q), ["on permit {"] + ObligationsLines(os), InsidePermit(s, q'), ["}"]);
  }

  // ------------------------------------------------------------- policies

  ghost predicate TakesAll(f: Feeder, t: Typing) {
    TakesRules(f, t) && TakesConditions(f) && TakesObligations(f) && TakesPolicies(f) && TakesDecls(f)
  }

  lemma HeadThrough(f: Feeder, s: State, p: PolicyAst)
    requires TakesPolicies(f) && Idle(s) && Safe(s) && PolicyWf(p)
    ensures Through(f, s, ["policy " + p.name + " {", "target clause " + TargetText(p.action, p.args),
                           "apply denyUnlessPermit"])
         == Some(Inside(s, Policy(p.name, TargetText(p.action, p.args), Targeted(map[], p.action, p.args), [], map[])))
  {
    var a, b, c := "policy " + p.name + " {", "target clause " + TargetText(p.action, p.args), "apply denyUnlessPermit";
    var q := Policy(p.name, "", map[], [], map[]);
    var t := q.(target := TargetText(p.action, p.args), resources := Targeted(map[], p.action, p.args));
    ThroughOne(f, Inside(s, t), c, Inside(s, t));
    ThroughOne(f, Inside(s, q), b, Inside(s, t));
    ThroughConcat(f, Inside(s, q), [b], Inside(s, t), [c]);
    ThroughOne(f, s, a, Inside(s, q));
    ThroughConcat(f, s, [a], Inside(s, q), [b] + [c]);
    assert [a, b, c] == [a] + ([b] + [c]);
  }

  /** The policy that is rebuilt, with the typing as a parameter. */
  function BuildWith(t: Typing, p: PolicyAst, named: map<string, string>): Policy {
    Policy(p.name, TargetText(p.action, p.args), TypedWith(t, Targeted(map[], p.action, p.args), p.rules),
           BuildRules(p.rules, named), Obliged(map[], p.onPermit))
  }

  /** What the head, the rules and the obligations make of the policy, one after the other. */
  lemma BuiltInSteps(t: Typing, p: PolicyAst, named: map<string, string>)
    ensures var q := Policy(p.name, TargetText(p.action, p.args), Targeted(map[], p.action, p.args), [], map[]);
            var q' := WithRules(t, q, p.rules, named);
            q'.(obligations := Obliged(q'.obligations, p.onPermit)) == BuildWith(t, p, named)
  {
    var q := Policy(p.name, TargetText(p.action, p.args), Targeted(map[], p.action, p.args), [], map[]);
    RulesBuilt(t, q, p.rules, named);
    RulesTyped(t, q, p.rules, named);
    assert [] + BuildRules(p.rules, named) == BuildRules(p.rules, named);
  }

  function HeadLines(p: PolicyAst): seq<string> {
    ["policy " + p.name + " {", "target clause " + TargetText(p.action, p.args), "apply denyUnlessPermit"]
  }

  function PermitLines(p: PolicyAst): seq<string> {
    ["on permit {"] + ObligationsLines(p.onPermit) + ["}"]
  }

  function HeadPolicy(p: PolicyAst): Policy {
    Policy(p.name, TargetText(p.action, p.args), Targeted(map[], p.action, p.args), [], map[])
  }

  lemma RulesPart(f: Feeder, t: Typing, s: State, p: PolicyAst)
    requires TakesAll(f, t) && Idle(s) && Safe(s) && PolicyWf(p)
    ensures Through(f, s, HeadLines(p) + RulesLines(p.rules))
         == Some(Inside(s, WithRules(t, HeadPolicy(p), p.rules, s.named)))
  {
    HeadThrough(f, s, p);
    RulesThrough(f, t, s, HeadPolicy(p), p.rules);
    ThroughConcat(f, s, HeadLines(p), Inside(s, HeadPolicy(p)), RulesLines(p.rules));
  }

  lemma ObligationsAreWf(p: PolicyAst)
    requires PolicyWf(p)
    ensures forall i | 0 <= i < |p.onPermit| :: ObligationWf(p.onPermit[i])
  {
  }

  lemma PermitPart(f: Feeder, t: Typing, s: State, p: PolicyAst)
    requires TakesObligations(f) && TakesPolicies(f) && Idle(s)
    requires forall i | 0 <= i < |p.onPermit| :: ObligationWf(p.onPermit[i])
    ensures Through(f, Inside(s, WithRules(t, HeadPolicy(p), p.rules, s.named)), PermitLines(p))
         == Some(Inside(s, BuildWith(t, p, s.named)))
  {
    BuiltInSteps(t, p, s.named);
    PermitTo(f, s, WithRules(t, HeadPolicy(p), p.rules, s.named), p, BuildWith(t, p, s.named));
  }

  lemma PermitTo(f: Feeder, s: State, q: Policy, p: PolicyAst, r: Policy)
    requires TakesObligations(f) && TakesPolicies(f) && Idle(s)
    requires forall i | 0 <= i < |p.onPermit| :: ObligationWf(p.onPermit[i])
    requires q.(obligations := Obliged(q.obligations, p.onPermit)) == r
    ensures Through(f, Inside(s, q), PermitLines(p)) == Some(Inside(s, r))
  {
    PermitThrough(f, s, q, p.onPermit);
  }

  lemma PolicyThrough(f: Feeder, t: Typing, s: State, p: PolicyAst)
    requires TakesAll(f, t) && Idle(s) && Safe(s) && PolicyWf(p)
    ensures Through(f, s, PolicyLines(p)) == Some(WithPolicy(s, BuildWith(t, p, s.named)))
  {
    RulesPart(f, t, s, p);
    ObligationsAreWf(p);
    PermitPart(f, t, s, p);
    ClosePart(f, s, BuildWith(t, p, s.named));
    var middle := Inside(s, WithRules(t, HeadPolicy(p), p.rules, s.named));
    ThreeThrough(f, s, HeadLines(p) + RulesLines(p.rules), middle, PermitLines(p), Inside(s, BuildWith(t, p, s.named)),
                 ["}"]);
  }

  lemma ClosePart(f: Feeder, s: State, q: Policy)
    requires TakesPolicies(f) && Idle(s)
    ensures Through(f, Inside(s, q), ["}"]) == Some(WithPolicy(s, q))
  {
    ThroughOne(f, Inside(s, q), "}", WithPolicy(s, q));
  }

  lemma ThreeThrough(f: Feeder, s: State, a: seq<string>, u: State, b: seq<string>, v: State, c: seq<string>)
    requires Through(f, s, a) == Some(u) && Through(f, u, b) == Some(v)
    ensures Through(f, s, a + b + c) == Through(f, v, c)
  {
    ThroughConcat(f, s, a, u, b);
    ThroughConcat(f, s, a + b, v, c);
  }

  function WithPolicy(s: State, q: Policy): State {
    s.(policies := s.policies + [q])
  }

  /** Reading the lines appends the policy. */
  ghost predicate Appends(f: Feeder, lines: seq<string>, q: Policy, named: map<string, string>) {
    forall s | Idle(s) && Safe(s) && s.named == named :: Through(f, s, lines) == Some(WithPolicy(s, q))
  }

  lemma PolicyAppends(f: Feeder, t: Typing, p: PolicyAst, named: map<string, string>)
    requires TakesAll(f, t) && PolicyWf(p)
    ensures Appends(f, PolicyLines(p), BuildWith(t, p, named), named)
  {
    forall s | Idle(s) && Safe(s) && s.named == named
      ensures Through(f, s, PolicyLines(p)) == Some(WithPolicy(s, BuildWith(t, p, named)))
    {
      PolicyThrough(f, t, s, p);
    }
  }

  function Chunks(ps: seq<PolicyAst>): seq<seq<string>> {
    if ps == [] then [] else [PolicyLines(ps[0])] + Chunks(ps[1..])
  }

  function Concat(chunks: seq<seq<string>>): seq<string> {
    if chunks == [] then [] else chunks[0] + Concat(chunks[1..])
  }

  lemma {:induction false} PoliciesChunks(ps: seq<PolicyAst>)
    ensures PoliciesLines(ps) == Concat(Chunks(ps)) && |Chunks(ps)| == |ps|
  {
    if ps != [] {
      PoliciesChunks(ps[1..]);
      assert Chunks(ps)[1..] == Chunks(ps[1..]);
    }
  }

  lemma FirstMoves(before: seq<Policy>, built: seq<Policy>)
    requires built != []
    ensures before + [built[0]] + built[1..] == before + built
  {
  }

  lemma {:induction false} ChunksThrough(f: Feeder, at: seq<Policy> -> State, before: seq<Policy>,
                                         chunks: seq<seq<string>>, built: seq<Policy>)
    requires |built| == |chunks|
    requires forall i, policies | 0 <= i < |chunks| ::
        Through(f, at(policies), chunks[i]) == Some(at(policies + [built[i]]))
    ensures Through(f, at(before), Concat(chunks)) == Some(at(before + built))
    decreases |chunks|
  {
    if chunks == [] {
      assert before + built == before;
    } else {
      ChunksThrough(f, at, before + [built[0]], chunks[1..], built[1..]);
      ThroughConcat(f, at(before), chunks[0], at(before + [built[0]]), Concat(chunks[1..]));
      FirstMoves(before, built);
    }
  }

  lemma PoliciesThrough(f: Feeder, s: State, chunks: seq<seq<string>>, built: seq<Policy>)
    requires Idle(s) && Safe(s) && |built| == |chunks|
    requires forall i | 0 <= i < |chunks| :: Appends(f, chunks[i], built[i], s.named)
    ensures Through(f, s, Concat(chunks)) == Some(s.(policies := s.policies + built))
  {
    var at := (policies: seq<Policy>) => s.(policies := policies);
    forall i, policies | 0 <= i < |chunks|
      ensures Through(f, at(policies), chunks[i]) == Some(at(policies + [built[i]]))
    {
      assert Appends(f, chunks[i], built[i], s.named);
      assert at(policies).named == s.named;
    }
    ChunksThrough(f, at, s.policies, chunks, built);
    assert at(s.policies) == s;
  }

  lemma {:induction false} TypingAgrees(t: Typing, resources: map<string, string>, rs: seq<RuleAst>)
    requires forall m, n :: t(m, n) == Typed(m, n)
    ensures TypedWith(t, resources, rs) == TypedBy(resources, rs)
    decreases |rs|
  {
    if rs != [] {
      TypingAgrees(t, t(resources, rs[0].name), rs[1..]);
    }
  }

  lemma {:induction false} BuiltEach(ps: seq<PolicyAst>, named: map<string, string>)
    ensures var built := BuildPolicies(ps, named);
            && |built| == |ps| == |Chunks(ps)|
            && forall i | 0 <= i < |ps| :: built[i] == BuildPolicy(ps[i], named) && Chunks(ps)[i] == PolicyLines(ps[i])
  {
    if ps != [] {
      BuiltEach(ps[1..], named);
      var built, chunks := BuildPolicies(ps, named), Chunks(ps);
      assert built == [BuildPolicy(ps[0], named)] + BuildPolicies(ps[1..], named);
      assert chunks == [PolicyLines(ps[0])] + Chunks(ps[1..]);
      assert forall i | 0 < i < |ps| :: ps[i] == ps[1..][i - 1];
    }
  }

  lemma BuiltAppends(f: Feeder, t: Typing, p: PolicyAst, named: map<string, string>)
    requires forall m, n :: t(m, n) == Typed(m, n)
    requires TakesAll(f, t) && PolicyWf(p)
    ensures Appends(f, PolicyLines(p), BuildPolicy(p, named), named)
  {
    PolicyAppends(f, t, p, named);
    TypingAgrees(t, Targeted(map[], p.action, p.args), p.rules);
    assert BuildWith(t, p, named) == BuildPolicy(p, named);
  }

  lemma DeclareKeeps(s: State, d: Decl)
    requires Idle(s) && Safe(s)
    ensures var v := Declare(s, d); Idle(v) && Safe(v) && v.policies == s.policies
  {
  }

  lemma {:induction false} DeclareAllKeeps(s: State, ds: seq<Decl>)
    requires Idle(s) && Safe(s)
    ensures var v := DeclareAll(s, ds); Idle(v) && Safe(v) && v.policies == s.policies
    decreases |ds|
  {
    if ds != [] {
      DeclareKeeps(s, ds[0]);
      DeclareAllKeeps(Declare(s, ds[0]), ds[1..]);
    }
  }

  lemma {:induction false} DeclsThrough(f: Feeder, s: State, ds: seq<Decl>)
    requires TakesDecls(f) && Idle(s) && Safe(s) && forall i | 0 <= i < |ds| :: DeclWf(ds[i])
    ensures Through(f, s, DeclLines(ds)) == Some(DeclareAll(s, ds))
    decreases |ds|
  {
    if ds != [] {
      var v := Declare(s, ds[0]);
      DeclareKeeps(s, ds[0]);
      assert DeclWf(ds[0]) && f(s, DeclLine(ds[0])) == Some(v);
      DeclsThrough(f, v, ds[1..]);
      ThroughOne(f, s, DeclLine(ds[0]), v);
      ThroughConcat(f, s, [DeclLine(ds[0])], v, DeclLines(ds[1..]));
    }
  }

  lemma AllPoliciesThrough(f: Feeder, t: Typing, s: State, ps: seq<PolicyAst>)
    requires forall m, n :: t(m, n) == Typed(m, n)
    requires TakesAll(f, t) && Idle(s) && Safe(s) && forall i | 0 <= i < |ps| :: PolicyWf(ps[i])
    ensures Through(f, s, PoliciesLines(ps)) == Some(s.(policies := s.policies + BuildPolicies(ps, s.named)))
  {
    BuiltEach(ps, s.named);
    forall i | 0 <= i < |ps|
      ensures Appends(f, Chunks(ps)[i], BuildPolicies(ps, s.named)[i], s.named)
    {
      BuiltAppends(f, t, ps[i], s.named);
    }
    PoliciesChunks(ps);
    PoliciesThrough(f, s, Chunks(ps), BuildPolicies(ps, s.named));
  }

  lemma SetThrough(f: Feeder, t: Typing, ps: PolicySetAst)
    requires forall m, n :: t(m, n) == Typed(m, n)
    requires TakesAll(f, t) && SetWf(ps)
    ensures Through(f, START, Render(ps)) == Some(Rebuilt(ps))
  {
    var named := START.(namespace := ps.namespace);
    var imported := named.(importSeen := true);
    var a, b := "namespace " + ps.namespace + " {", MANDATORY_IMPORT;
    ThroughOne(f, START, a, named);
    ThroughOne(f, named, b, imported);
    ThroughConcat(f, START, [a], named, [b]);
    assert [a, b] == [a] + [b];
    var declared := DeclareAll(imported, ps.decls);
    DeclsThrough(f, imported, ps.decls);
    DeclareAllKeeps(imported, ps.decls);
    ThroughConcat(f, START, [a, b], imported, DeclLines(ps.decls));
    AllPoliciesThrough(f, t, declared, ps.policies);
    assert [] + BuildPolicies(ps.policies, declared.named) == BuildPolicies(ps.policies, declared.named);
    ThroughConcat(f, START, [a, b] + DeclLines(ps.decls), declared, PoliciesLines(ps.policies));
    ThroughOne(f, Rebuilt(ps), "}", Rebuilt(ps));
    ThroughConcat(f, START, [a, b] + DeclLines(ps.decls) + PoliciesLines(ps.policies), Rebuilt(ps), ["}"]);
  }

  // ----------------------------------------------------------- the parser

  /** The parser on one tight line. */
  function ParserFeed(s: State, line: string): Option<State> {
    if !Safe(s) || !Tight(line) then None
    else
      match Feed(s, line)
      case Ok(v) => Some(v)
      case Err(_) => None
  }

  lemma {:induction false} ThroughIsLines(f: Feeder, s: State, lines: seq<string>, v: State)
    requires IsParser(f)
    requires Safe(s) && Through(f, s, lines) == Some(v)
    ensures Lines(s, lines) == Ok(v)
    decreases |lines|
  {
    if lines != [] {
      TightTrim(lines[0]);
      ThroughIsLines(f, f(s, lines[0]).value, lines[1..], v);
    }
  }

  ghost predicate IsParser(f: Feeder) {
    forall t, line :: f(t, line) == ParserFeed(t, line)
  }

  lemma FromFeed(f: Feeder, s: State, line: string, v: State)
    requires IsParser(f) && Safe(s) && Tight(line) && Feed(s, line) == Ok(v)
    ensures f(s, line) == Some(v)
  {
  }

  lemma ParserTakesRules(f: Feeder, t: Typing)
    requires IsParser(f) && forall m, n :: t(m, n) == Typed(m, n)
    ensures TakesRules(f, t)
  {
    forall s, q, name | Idle(s) && Ident(name)
      ensures f(Inside(s, q), "rule " + name + " {")
           == Some(InsideRule(s, q.(resources := t(q.resources, name)), Rule(name, "", "")))
    {
      RuleOpens(s, q, name);
      RuleHead(name);
      FromFeed(f, Inside(s, q), "rule " + name + " {",
               InsideRule(s, q.(resources := Typed(q.resources, name)), Rule(name, "", "")));
    }
    forall s, q, r, permit | Idle(s)
      ensures f(InsideRule(s, q, r), Effect(permit)) == Some(InsideRule(s, q, r.(action := Effect(permit))))
    {
      EffectTaken(s, q, r, permit);
      FromFeed(f, InsideRule(s, q, r), Effect(permit), InsideRule(s, q, r.(action := Effect(permit))));
    }
    forall s, q, r | Idle(s)
      ensures f(InsideRule(s, q, r), "}") == Some(Inside(s, q.(rules := q.rules + [r])))
    {
      RuleCloses(s, q, r);
      FromFeed(f, InsideRule(s, q, r), "}", Inside(s, q.(rules := q.rules + [r])));
    }
  }

  lemma ParserReadsConditions(f: Feeder)
    requires IsParser(f)
    ensures TakesConditions(f)
  {
    forall s, q, r, c | Idle(s) && ConditionWf(c)
      ensures f(InsideRule(s, q, r), "condition " + c)
           == Some(InsideRule(s, q, WithCondition(r, ExpandCondition(c, s.named) + " ")))
    {
      ConditionTaken(s, q, r, c);
      ConditionTight(c);
      FromFeed(f, InsideRule(s, q, r), "condition " + c,
               InsideRule(s, q, WithCondition(r, ExpandCondition(c, s.named) + " ")));
    }
  }

  lemma ConditionTight(c: string)
    requires ConditionWf(c)
    ensures Tight("condition " + c)
  {
    var line := "condition " + c;
    assert line[|line| - 1] == c[|c| - 1];
  }

  lemma ParserOpensObligations(f: Feeder, s: State, q: Policy, sym: string)
    requires IsParser(f) && Idle(s) && Ident(sym)
    ensures f(InsidePermit(s, q), "obligation " + sym + " {") == Some(InsideObligation(s, q, sym, Params(q, sym)))
  {
    ObligationOpens(s, q, sym);
    ObligationHead(sym);
    FromFeed(f, InsidePermit(s, q), "obligation " + sym + " {", InsideObligation(s, q, sym, Params(q, sym)));
  }

  lemma ParserReadsParams(f: Feeder, s: State, q: Policy, sym: string, params: map<string, string>, p: Pair)
    requires IsParser(f) && Idle(s) && ParamWf(p)
    ensures f(InsideObligation(s, q, sym, params), AssignmentText(p.key, p.value))
         == Some(InsideObligation(s, q, sym, params[p.key := p.value]))
  {
    ParamTaken(s, q, sym, params, p);
    AssignmentSplits(p.key, p.value);
    FromFeed(f, InsideObligation(s, q, sym, params), AssignmentText(p.key, p.value),
             InsideObligation(s, q, sym, params[p.key := p.value]));
  }

  lemma ParserClosesObligations(f: Feeder, s: State, q: Policy, sym: string, params: map<string, string>)
    requires IsParser(f) && Idle(s)
    ensures f(InsideObligation(s, q, sym, params), "}")
         == Some(InsidePermit(s, q.(obligations := q.obligations[sym := params])))
  {
    ObligationCloses(s, q, sym, params);
    FixedTight();
    FromFeed(f, InsideObligation(s, q, sym, params), "}",
             InsidePermit(s, q.(obligations := q.obligations[sym := params])));
  }

  lemma ParserTakesObligations(f: Feeder)
    requires IsParser(f)
    ensures TakesObligations(f)
  {
    forall s, q, sym | Idle(s) && Ident(sym)
      ensures f(InsidePermit(s, q), "obligation " + sym + " {") == Some(InsideObligation(s, q, sym, Params(q, sym)))
    {
      ParserOpensObligations(f, s, q, sym);
    }
    forall s, q, sym, params, p | Idle(s) && ParamWf(p)
      ensures f(InsideObligation(s, q, sym, params), AssignmentText(p.key, p.value))
           == Some(InsideObligation(s, q, sym, params[p.key := p.value]))
    {
      ParserReadsParams(f, s, q, sym, params, p);
    }
    forall s, q, sym, params | Idle(s)
      ensures f(InsideObligation(s, q, sym, params), "}")
           == Some(InsidePermit(s, q.(obligations := q.obligations[sym := params])))
    {
      ParserClosesObligations(f, s, q, sym, params);
    }
  }

  lemma HeadsTight(name: string)
    requires Ident(name)
    ensures Tight("policy " + name + " {") && Tight("namespace " + name + " {")
  {
  }

  lemma ParserReadsHead(f: Feeder)
    requires IsParser(f)
    ensures forall s, name | Idle(s) && Safe(s) && Ident(name) ::
              f(s, "policy " + name + " {") == Some(Inside(s, Policy(name, "", map[], [], map[])))
    ensures forall s, q, action, args | Idle(s) && Ident(action) && Idents(args) ::
              f(Inside(s, q), "target clause " + TargetText(action, args))
              == Some(Inside(s, q.(target := TargetText(action, args),
                                   resources := Targeted(q.resources, action, args))))
  {
    forall s, name | Idle(s) && Safe(s) && Ident(name)
      ensures f(s, "policy " + name + " {") == Some(Inside(s, Policy(name, "", map[], [], map[])))
    {
      PolicyOpens(s, name);
      HeadsTight(name);
      FromFeed(f, s, "policy " + name + " {", Inside(s, Policy(name, "", map[], [], map[])));
    }
    forall s, q, action, args | Idle(s) && Ident(action) && Idents(args)
      ensures f(Inside(s, q), "target clause " + TargetText(action, args))
           == Some(Inside(s, q.(target := TargetText(action, args), resources := Targeted(q.resources, action, args))))
    {
      TargetTaken(s, q, action, args);
      TargetRead(action, args);
      FromFeed(f, Inside(s, q), "target clause " + TargetText(action, args),
               Inside(s, q.(target := TargetText(action, args), resources := Targeted(q.resources, action, args))));
    }
  }

  lemma FixedTight()
    ensures Tight("apply denyUnlessPermit") && Tight("on permit {") && Tight("}") && Tight(MANDATORY_IMPORT)
  {
  }

  lemma ParserTakesPolicies(f: Feeder)
    requires IsParser(f)
    ensures TakesPolicies(f)
  {
    ParserReadsHead(f);
    FixedTight();
    forall s, q | Idle(s) ensures f(Inside(s, q), "apply denyUnlessPermit") == Some(Inside(s, q)) {
      ApplyTaken(s, q);
      FromFeed(f, Inside(s, q), "apply denyUnlessPermit", Inside(s, q));
    }
    forall s, q | Idle(s) ensures f(Inside(s, q), "on permit {") == Some(InsidePermit(s, q)) {
      PermitOpens(s, q);
      FromFeed(f, Inside(s, q), "on permit {", InsidePermit(s, q));
    }
    forall s, q | Idle(s) ensures f(InsidePermit(s, q), "}") == Some(Inside(s, q)) {
      PermitCloses(s, q);
      FromFeed(f, InsidePermit(s, q), "}", Inside(s, q));
    }
    forall s, q | Idle(s) ensures f(Inside(s, q), "}") == Some(s.(policies := s.policies + [q])) {
      PolicyCloses(s, q);
      FromFeed(f, Inside(s, q), "}", s.(policies := s.policies + [q]));
    }
  }

  lemma ParserTakesDecls(f: Feeder)
    requires IsParser(f)
    ensures TakesDecls(f)
  {
    FixedTight();
    forall s, n | Idle(s) && Safe(s) && Ident(n) ensures f(s, "namespace " + n + " {") == Some(s.(namespace := n)) {
      NamespaceTaken(s, n);
      FeedNamespace(s, "namespace " + n + " {", s.(namespace := n));
      HeadsTight(n);
      FromFeed(f, s, "namespace " + n + " {", s.(namespace := n));
    }
    forall s | Idle(s) && Safe(s) ensures f(s, MANDATORY_IMPORT) == Some(s.(importSeen := true)) {
      ImportTaken(s);
      FeedNamespace(s, MANDATORY_IMPORT, s.(importSeen := true));
      FromFeed(f, s, MANDATORY_IMPORT, s.(importSeen := true));
    }
    ParserReadsDecls(f);
    forall s | Idle(s) && Safe(s) ensures f(s, "}") == Some(s) {
      FileCloses(s);
      FromFeed(f, s, "}", s);
    }
  }

  lemma ParserReadsDecls(f: Feeder)
    requires IsParser(f)
    ensures forall s, d | Idle(s) && Safe(s) && DeclWf(d) :: f(s, DeclLine(d)) == Some(Declare(s, d))
  {
    forall s, d | Idle(s) && Safe(s) && DeclWf(d) ensures f(s, DeclLine(d)) == Some(Declare(s, d)) {
      DeclTaken(s, d);
      DeclTight(d);
      DeclIsNext(s, DeclLine(d));
      FeedNamespace(s, DeclLine(d), Declare(s, d));
      FromFeed(f, s, DeclLine(d), Declare(s, d));
    }
  }

  /** Parsing inverts rendering: however the rendered lines are indented and spaced
      with blank lines, the parser rebuilds the policy set: declarations, policies
      with name, target, first argument, type, rules with expanded conditions, and
      obligations, all in order. */
  lemma ParseInvertsRender(ps: PolicySetAst, lines: seq<string>)
    requires SetWf(ps) && Clean(lines) == Render(ps)
    ensures Lines(START, lines) == Ok(Rebuilt(ps))
  {
    var f: Feeder := (s, line) => ParserFeed(s, line);
    var t: Typing := (m, n) => Typed(m, n);
    ParserTakesRules(f, t);
    ParserReadsConditions(f);
    ParserTakesObligations(f);
    ParserTakesPolicies(f);
    ParserTakesDecls(f);
    SetThrough(f, t, ps);
    ThroughIsLines(f, START, Render(ps), Rebuilt(ps));
    LinesClean(START, lines);
  }
}
