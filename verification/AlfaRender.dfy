/** Policy sets, their canonical text with one construct per line, and the proof
    that the parser rebuilds them. */
module AlfaRender {
  import opened Wrappers
  import opened GoStrings
  import opened Identifiers
  import opened AlfaParser
  import opened AlfaText

  datatype Decl =
    | AttributeDecl(name: string, cat: string, typ: string)
    | NamedDecl(name: string, expr: string)
    | CategoryDecl(sym: string, uri: string)
    | ObligationDecl(sym: string, uri: string)

  datatype RuleAst = RuleAst(name: string, permit: bool, conditions: seq<string>)

  datatype ObligationAst = ObligationAst(sym: string, params: seq<Pair>)

  datatype PolicyAst = PolicyAst(name: string, action: string, args: seq<string>, rules: seq<RuleAst>,
                                 onPermit: seq<ObligationAst>)

  datatype PolicySetAst = PolicySetAst(namespace: string, decls: seq<Decl>, policies: seq<PolicyAst>)

  predicate DeclWf(d: Decl) {
    match d
    case AttributeDecl(name, cat, typ) => Ident(name) && Ident(cat) && Ident(typ)
    case NamedDecl(name, expr) => Ident(name) && Tight(expr)
    case CategoryDecl(sym, uri) => Ident(sym) && Quotable(uri)
    case ObligationDecl(sym, uri) => Ident(sym) && Quotable(uri)
  }

  predicate ConditionWf(c: string) {
    Tight(c) && c[|c| - 1] != ';'
  }

  predicate RuleWf(r: RuleAst) {
    Ident(r.name) && forall i | 0 <= i < |r.conditions| :: ConditionWf(r.conditions[i])
  }

  predicate ParamWritten(p: Pair) {
    Ident(p.key) && Quotable(p.value)
  }

  predicate ObligationWritten(o: ObligationAst) {
    Ident(o.sym) && forall i | 0 <= i < |o.params| :: ParamWritten(o.params[i])
  }

  predicate PolicyWritten(p: PolicyAst) {
    && Ident(p.name) && Ident(p.action) && Idents(p.args)
    && (forall i | 0 <= i < |p.rules| :: RuleWf(p.rules[i]))
    && (forall i | 0 <= i < |p.onPermit| :: ObligationWritten(p.onPermit[i]))
  }

  predicate SetWritten(ps: PolicySetAst) {
    && Ident(ps.namespace)
    && (forall i | 0 <= i < |ps.decls| :: DeclWf(ps.decls[i]))
    && (forall i | 0 <= i < |ps.policies| :: PolicyWritten(ps.policies[i]))
  }

  /** A parameter called `policy` is read as the start of a policy. */
  predicate Readable(o: ObligationAst) {
    forall i | 0 <= i < |o.params| :: o.params[i].key != "policy"
  }

  predicate AllReadable(p: PolicyAst) {
    forall i | 0 <= i < |p.onPermit| :: Readable(p.onPermit[i])
  }

  predicate ParamWf(p: Pair) {
    ParamWritten(p) && p.key != "policy"
  }

  predicate ObligationWf(o: ObligationAst) {
    ObligationWritten(o) && Readable(o)
  }

  predicate PolicyWf(p: PolicyAst) {
    PolicyWritten(p) && AllReadable(p)
  }

  predicate SetWf(ps: PolicySetAst) {
    SetWritten(ps) && forall i | 0 <= i < |ps.policies| :: AllReadable(ps.policies[i])
  }

  // --------------------------------------------------------------- rendering

  function DeclLine(d: Decl): string {
    match d
    case AttributeDecl(name, cat, typ) => "attribute " + AttributeText(name, cat, typ)
    case NamedDecl(name, expr) => "condition " + name + " " + expr
    case CategoryDecl(sym, uri) => "category" + " " + AssignmentText(sym, uri)
    case ObligationDecl(sym, uri) => "obligation" + " " + AssignmentText(sym, uri)
  }

  function DeclLines(ds: seq<Decl>): seq<string> {
    if ds == [] then [] else [DeclLine(ds[0])] + DeclLines(ds[1..])
  }

  function ConditionLines(cs: seq<string>): seq<string> {
    if cs == [] then [] else ["condition " + cs[0]] + ConditionLines(cs[1..])
  }

  function RuleLines(r: RuleAst): seq<string> {
    ["rule " + r.name + " {", if r.permit then "permit" else "deny"] + ConditionLines(r.conditions) + ["}"]
  }

  function RulesLines(rs: seq<RuleAst>): seq<string> {
    if rs == [] then [] else RuleLines(rs[0]) + RulesLines(rs[1..])
  }

  function ParamLines(ps: seq<Pair>): seq<string> {
    if ps == [] then [] else [AssignmentText(ps[0].key, ps[0].value)] + ParamLines(ps[1..])
  }

  function ObligationLines(o: ObligationAst): seq<string> {
    ["obligation " + o.sym + " {"] + ParamLines(o.params) + ["}"]
  }

  function ObligationsLines(os: seq<ObligationAst>): seq<string> {
    if os == [] then [] else ObligationLines(os[0]) + ObligationsLines(os[1..])
  }

  function PolicyLines(p: PolicyAst): seq<string> {
    ["policy " + p.name + " {", "target clause " + TargetText(p.action, p.args), "apply denyUnlessPermit"]
    + RulesLines(p.rules)
    + (["on permit {"] + ObligationsLines(p.onPermit) + ["}"])
    + ["}"]
  }

  function PoliciesLines(ps: seq<PolicyAst>): seq<string> {
    if ps == [] then [] else PolicyLines(ps[0]) + PoliciesLines(ps[1..])
  }

  function Render(ps: PolicySetAst): seq<string> {
    ["namespace " + ps.namespace + " {", MANDATORY_IMPORT] + DeclLines(ps.decls) + PoliciesLines(ps.policies) + ["}"]
  }

  // ---------------------------------------------------------- what is rebuilt

  function Declare(s: State, d: Decl): State {
    match d
    case AttributeDecl(name, cat, _) => s.(attributes := s.attributes[name := cat])
    case NamedDecl(name, expr) => s.(named := s.named[name := expr])
    case CategoryDecl(sym, uri) => s.(categories := s.categories[sym := uri])
    case ObligationDecl(sym, uri) => s.(obligations := s.obligations[sym := uri])
  }

  function DeclareAll(s: State, ds: seq<Decl>): State
    decreases |ds|
  {
    if ds == [] then s else DeclareAll(Declare(s, ds[0]), ds[1..])
  }

  /** The expanded conditions, each followed by a blank. */
  function Expanded(cs: seq<string>, named: map<string, string>): string {
    if cs == [] then "" else ExpandCondition(cs[0], named) + " " + Expanded(cs[1..], named)
  }

  function BuildRule(r: RuleAst, named: map<string, string>): Rule {
    Rule(r.name, if r.permit then "permit" else "deny", Expanded(r.conditions, named))
  }

  function BuildRules(rs: seq<RuleAst>, named: map<string, string>): seq<Rule> {
    if rs == [] then [] else [BuildRule(rs[0], named)] + BuildRules(rs[1..], named)
  }

  /** The type recorded for the policy: that of its last rule that has one. */
  function TypedBy(resources: map<string, string>, rs: seq<RuleAst>): map<string, string>
    decreases |rs|
  {
    if rs == [] then resources
    else
      TypedBy(Typed(resources, rs[0].name), rs[1..])
  }

  function Assigned(m: map<string, string>, ps: seq<Pair>): map<string, string>
    decreases |ps|
  {
    if ps == [] then m else Assigned(m[ps[0].key := ps[0].value], ps[1..])
  }

  function Obliged(m: map<string, map<string, string>>, os: seq<ObligationAst>): map<string, map<string, string>>
    decreases |os|
  {
    if os == [] then m
    else Obliged(m[os[0].sym := Assigned(if os[0].sym in m then m[os[0].sym] else map[], os[0].params)], os[1..])
  }

  function BuildPolicy(p: PolicyAst, named: map<string, string>): Policy {
    Policy(p.name, TargetText(p.action, p.args), TypedBy(Targeted(map[], p.action, p.args), p.rules),
           BuildRules(p.rules, named), Obliged(map[], p.onPermit))
  }

  function BuildPolicies(ps: seq<PolicyAst>, named: map<string, string>): seq<Policy> {
    if ps == [] then [] else [BuildPolicy(ps[0], named)] + BuildPolicies(ps[1..], named)
  }

  function Rebuilt(ps: PolicySetAst): State {
    var declared := DeclareAll(START.(namespace := ps.namespace, importSeen := true), ps.decls);
    declared.(policies := BuildPolicies(ps.policies, declared.named))
  }

  // ------------------------------------------------------------- single lines

  predicate Idle(s: State) {
    && !s.inPolicy && !s.inRule && !s.inOnPermit && !s.inObligation
    && s.policy == None && s.rule == None && s.obligation == ""
  }

  lemma NamespaceTaken(s: State, n: string)
    requires Idle(s) && Ident(n)
    ensures NamespaceLine(s, "namespace " + n + " {") == Consumed(s.(namespace := n))
  {
    assert "namespace " + n + " {" == "namespace " + (n + " {");
    IsPrefix("namespace ", n + " {");
    HeadNameIs("namespace ", n);
  }

  lemma ImportTaken(s: State)
    requires Idle(s)
    ensures NamespaceLine(s, MANDATORY_IMPORT) == Consumed(s.(importSeen := true))
  {
    OtherKeyword(MANDATORY_IMPORT, "namespace ");
    assert MANDATORY_IMPORT == "import " + "Oasis.Attributes.*";
    IsPrefix("import ", "Oasis.Attributes.*");
    TightTrim(MANDATORY_IMPORT);
  }

  lemma AttributeTaken(s: State, name: string, cat: string, typ: string)
    requires Idle(s) && Ident(name) && Ident(cat) && Ident(typ)
    ensures DeclarationLine(s, "attribute " + AttributeText(name, cat, typ))
         == Consumed(s.(attributes := s.attributes[name := cat]))
  {
    IsPrefix("attribute ", AttributeText(name, cat, typ));
    AttributeParses(name, cat, typ);
  }

  lemma NamedTaken(s: State, name: string, expr: string)
    requires Idle(s) && Ident(name) && Tight(expr)
    ensures DeclarationLine(s, "condition " + name + " " + expr) == Consumed(s.(named := s.named[name := expr]))
  {
    var line := "condition " + name + " " + expr;
    OtherKeyword(line, "attribute ");
    assert line == "condition " + (name + " " + expr);
    IsPrefix("condition ", name + " " + expr);
    NamedConditionParses(name, expr);
  }

  lemma SymbolIsNext(s: State, line: string)
    requires Safe(s) && !HasPrefix(line, "attribute ") && !HasPrefix(line, "condition ")
    ensures DeclarationLine(s, line) == SymbolLine(s, line)
  {
  }

  lemma CategoryTaken(s: State, sym: string, uri: string)
    requires Idle(s) && Ident(sym) && Quotable(uri)
    ensures SymbolLine(s, "category" + " " + AssignmentText(sym, uri))
        == Consumed(s.(categories := s.categories[sym := uri]))
  {
    assert "category" + " " + AssignmentText(sym, uri) == "category " + AssignmentText(sym, uri);
    IsPrefix("category ", AssignmentText(sym, uri));
    SymbolParses("category", sym, uri);
  }

  lemma ObligationTaken(s: State, sym: string, uri: string)
    requires Idle(s) && Ident(sym) && Quotable(uri)
    ensures SymbolLine(s, "obligation" + " " + AssignmentText(sym, uri))
        == Consumed(s.(obligations := s.obligations[sym := uri]))
  {
    var line := "obligation" + " " + AssignmentText(sym, uri);
    OtherKeyword(line, "category ");
    assert line == "obligation " + AssignmentText(sym, uri);
    IsPrefix("obligation ", AssignmentText(sym, uri));
    SymbolParses("obligation", sym, uri);
  }

  lemma DeclTaken(s: State, d: Decl)
    requires Idle(s) && DeclWf(d)
    ensures DeclarationLine(s, DeclLine(d)) == Consumed(Declare(s, d))
  {
    var line := DeclLine(d);
    match d {
      case AttributeDecl(name, cat, typ) => AttributeTaken(s, name, cat, typ);
      case NamedDecl(name, expr) => NamedTaken(s, name, expr);
      case CategoryDecl(sym, uri) =>
        OtherKeyword(line, "attribute ");
        OtherKeyword(line, "condition ");
        SymbolIsNext(s, line);
        CategoryTaken(s, sym, uri);
      case ObligationDecl(sym, uri) =>
        OtherKeyword(line, "attribute ");
        OtherKeyword(line, "condition ");
        SymbolIsNext(s, line);
        ObligationTaken(s, sym, uri);
    }
  }

  lemma DeclTight(d: Decl)
    requires DeclWf(d)
    ensures Tight(DeclLine(d)) && !HasPrefix(DeclLine(d), "namespace ") && !HasPrefix(DeclLine(d), "import ")
  {
    var line := DeclLine(d);
    OtherKeyword(line, "namespace ");
    OtherKeyword(line, "import ");
    if d.NamedDecl? {
      assert line[|line| - 1] == d.expr[|d.expr| - 1];
    }
  }

  lemma DeclIsNext(s: State, line: string)
    requires Safe(s) && !HasPrefix(line, "namespace ") && !HasPrefix(line, "import ")
    ensures NamespaceLine(s, line) == DeclarationLine(s, line)
  {
  }

  lemma FeedNamespace(s: State, line: string, v: State)
    requires Safe(s) && Idle(s) && NamespaceLine(s, line) == Consumed(v)
    ensures Feed(s, line) == Ok(v)
  {
  }

  // ------------------------------------------------------------ in a policy

  /** The state inside a policy that so far is `q`. */
  function Inside(s: State, q: Policy): State {
    s.(policies := s.policies + [q], policy := Some(|s.policies|), inPolicy := true)
  }

  function InsideRule(s: State, q: Policy, r: Rule): State {
    Inside(s, q.(rules := q.rules + [r])).(rule := Some(|q.rules|), inRule := true)
  }

  function InsidePermit(s: State, q: Policy): State {
    Inside(s, q).(inOnPermit := true)
  }

  function InsideObligation(s: State, q: Policy, sym: string, params: map<string, string>): State {
    Inside(s, q.(obligations := q.obligations[sym := params]))
    .(inOnPermit := true, inObligation := true, obligation := sym)
  }

  lemma PolicyOpens(s: State, name: string)
    requires Safe(s) && Idle(s) && Ident(name)
    ensures Feed(s, "policy " + name + " {") == Ok(Inside(s, Policy(name, "", map[], [], map[])))
  {
    var line := "policy " + name + " {";
    assert line == "policy " + (name + " {");
    IsPrefix("policy ", name + " {");
    HeadNameIs("policy ", name);
    OtherKeyword(line, "namespace ");
    OtherKeyword(line, "import ");
    OtherKeyword(line, "attribute ");
    OtherKeyword(line, "condition ");
    OtherKeyword(line, "category ");
    OtherKeyword(line, "obligation ");
  }

  lemma FeedPolicy(s: State, q: Policy, line: string, v: State)
    requires Idle(s) && !HasPrefix(line, "policy ")
    requires Safe(Inside(s, q)) && PolicyLine(Inside(s, q), line) == Consumed(v)
    ensures Feed(Inside(s, q), line) == Ok(v)
  {
  }

  lemma InsideSet(s: State, q: Policy, t: Policy)
    requires Idle(s)
    ensures Safe(Inside(s, q)) && Current(Inside(s, q)) == q && SetCurrent(Inside(s, q), t) == Inside(s, t)
  {
    assert (s.policies + [q])[|s.policies| := t] == s.policies + [t];
  }

  /** The resources that a target records. */
  function Targeted(resources: map<string, string>, action: string, args: seq<string>): map<string, string> {
    var named := resources["name" := action];
    if args == [] then named else named["struct" := args[0]]
  }

  lemma TargetLine(st: State, line: string, target: string, a: Action)
    requires Safe(st) && st.inPolicy && !st.inRule && !st.inOnPermit
    requires HasPrefix(line, "target clause") && TrimSpace(TrimPrefix(line, "target clause ")) == target
    requires ParseAction(target) == Some(a)
    ensures PolicyLine(st, line)
         == Consumed(SetCurrent(st,
             Current(st).(target := target, resources := Targeted(Current(st).resources, a.name, a.args))))
  {
  }

  lemma TargetRead(action: string, args: seq<string>)
    requires Ident(action) && Idents(args)
    ensures var line := "target clause " + TargetText(action, args);
            && HasPrefix(line, "target clause")
            && TrimSpace(TrimPrefix(line, "target clause ")) == TargetText(action, args)
            && !HasPrefix(line, "policy ") && Tight(line)
  {
    var t := TargetText(action, args);
    var line := "target clause " + t;
    IsPrefix("target clause ", t);
    assert line == "target clause" + (" " + t);
    IsPrefix("target clause", " " + t);
    OtherKeyword(line, "policy ");
    TargetTight(action, args);
    TightTrim(t);
    assert line[|line| - 1] == t[|t| - 1];
  }

  lemma TargetTaken(s: State, q: Policy, action: string, args: seq<string>)
    requires Idle(s) && Ident(action) && Idents(args)
    ensures Safe(Inside(s, q))
    ensures Feed(Inside(s, q), "target clause " + TargetText(action, args))
         == Ok(Inside(s, q.(target := TargetText(action, args), resources := Targeted(q.resources, action, args))))
  {
    var t := TargetText(action, args);
    var line := "target clause " + t;
    var q' := q.(target := t, resources := Targeted(q.resources, action, args));
    InsideSet(s, q, q');
    TargetRead(action, args);
    ActionParses(action, args);
    TargetLine(Inside(s, q), line, t, Action(action, args));
    FeedPolicy(s, q, line, Inside(s, q'));
  }

  lemma ApplyTaken(s: State, q: Policy)
    requires Idle(s)
    ensures Safe(Inside(s, q)) && Feed(Inside(s, q), "apply denyUnlessPermit") == Ok(Inside(s, q))
  {
    var line := "apply denyUnlessPermit";
    assert line == "apply " + "denyUnlessPermit";
    IsPrefix("apply ", "denyUnlessPermit");
    OtherKeyword(line, "policy ");
    OtherKeyword(line, "target clause");
    FeedPolicy(s, q, line, Inside(s, q));
  }

  function Typed(resources: map<string, string>, name: string): map<string, string> {
    var typ := TypeFromRuleName(name);
    if typ == "" then resources else resources["type" := typ]
  }

  lemma RuleHead(name: string)
    requires Ident(name)
    ensures var line := "rule " + name + " {";
            && HasPrefix(line, "rule ") && HeadName(line, "rule ") == name && Tight(line)
            && !HasPrefix(line, "policy ") && !HasPrefix(line, "target clause") && !HasPrefix(line, "apply ")
  {
    var line := "rule " + name + " {";
    assert line == "rule " + (name + " {");
    IsPrefix("rule ", name + " {");
    HeadNameIs("rule ", name);
    OtherKeyword(line, "policy ");
    OtherKeyword(line, "target clause");
    OtherKeyword(line, "apply ");
  }

  lemma RuleHeadLine(st: State, line: string, name: string)
    requires Safe(st) && st.inPolicy && !st.inRule && !st.inOnPermit
    requires HasPrefix(line, "rule ") && HeadName(line, "rule ") == name
    requires !HasPrefix(line, "target clause") && !HasPrefix(line, "apply ")
    ensures var p := Current(st);
            PolicyLine(st, line)
            == Consumed(SetCurrent(st,
                p.(rules := p.rules + [Rule(name, "", "")], resources := Typed(p.resources, name)))
                        .(rule := Some(|p.rules|), inRule := true))
  {
  }

  lemma RuleOpens(s: State, q: Policy, name: string)
    requires Idle(s) && Ident(name)
    ensures Safe(Inside(s, q))
    ensures Feed(Inside(s, q), "rule " + name + " {")
         == Ok(InsideRule(s, q.(resources := Typed(q.resources, name)), Rule(name, "", "")))
  {
    var line := "rule " + name + " {";
    var q' := q.(rules := q.rules + [Rule(name, "", "")], resources := Typed(q.resources, name));
    InsideSet(s, q, q');
    RuleHead(name);
    RuleHeadLine(Inside(s, q), line, name);
    FeedPolicy(s, q, line, InsideRule(s, q.(resources := Typed(q.resources, name)), Rule(name, "", "")));
  }

  lemma FeedRule(s: State, q: Policy, r: Rule, line: string, v: State)
    requires Idle(s) && !HasPrefix(line, "policy ")
    requires Safe(InsideRule(s, q, r)) && RuleLine(InsideRule(s, q, r), line) == Consumed(v)
    ensures Feed(InsideRule(s, q, r), line) == Ok(v)
  {
  }

  lemma RuleSafe(s: State, q: Policy, r: Rule)
    requires Idle(s)
    ensures Safe(InsideRule(s, q, r))
    ensures Current(InsideRule(s, q, r)).rules[|q.rules|] == r
    ensures forall t: Rule :: SetRule(InsideRule(s, q, r), t) == InsideRule(s, q, t)
  {
    var st := InsideRule(s, q, r);
    forall t: Rule ensures SetRule(st, t) == InsideRule(s, q, t) {
      assert (q.rules + [r])[|q.rules| := t] == q.rules + [t];
      var q', q'' := q.(rules := q.rules + [r]), q.(rules := q.rules + [t]);
      assert (s.policies + [q'])[|s.policies| := q''] == s.policies + [q''];
    }
  }

  lemma EffectTaken(s: State, q: Policy, r: Rule, permit: bool)
    requires Idle(s)
    ensures Safe(InsideRule(s, q, r))
    ensures var word := if permit then "permit" else "deny";
            Feed(InsideRule(s, q, r), word) == Ok(InsideRule(s, q, r.(action := word)))
  {
    var word := if permit then "permit" else "deny";
    RuleSafe(s, q, r);
    assert word == word + "";
    IsPrefix(word, "");
    OtherKeyword(word, "policy ");
    if !permit {
      OtherKeyword(word, "permit");
    }
    FeedRule(s, q, r, word, InsideRule(s, q, r.(action := word)));
  }

  lemma ConditionTaken(s: State, q: Policy, r: Rule, c: string)
    requires Idle(s) && ConditionWf(c)
    ensures Safe(InsideRule(s, q, r))
    ensures Feed(InsideRule(s, q, r), "condition " + c)
         == Ok(InsideRule(s, q, WithCondition(r, ExpandCondition(c, s.named) + " ")))
  {
    var line := "condition " + c;
    RuleSafe(s, q, r);
    IsPrefix("condition ", c);
    TightTrim(c);
    NoOccurrence(c, ";", |c| - 1, 0);
    OtherKeyword(line, "policy ");
    OtherKeyword(line, "permit");
    OtherKeyword(line, "deny");
    assert r.condition + ExpandCondition(c, s.named) + " " == r.condition + (ExpandCondition(c, s.named) + " ");
    FeedRule(s, q, r, line, InsideRule(s, q, WithCondition(r, ExpandCondition(c, s.named) + " ")));
  }

  function WithCondition(r: Rule, text: string): Rule {
    r.(condition := r.condition + text)
  }

  lemma RuleCloses(s: State, q: Policy, r: Rule)
    requires Idle(s)
    ensures Safe(InsideRule(s, q, r))
    ensures Feed(InsideRule(s, q, r), "}") == Ok(Inside(s, q.(rules := q.rules + [r])))
  {
    RuleSafe(s, q, r);
    FeedRule(s, q, r, "}", Inside(s, q.(rules := q.rules + [r])));
  }

  lemma PermitOpens(s: State, q: Policy)
    requires Idle(s)
    ensures Safe(Inside(s, q)) && Feed(Inside(s, q), "on permit {") == Ok(InsidePermit(s, q))
  {
    var line := "on permit {";
    assert line == "on permit" + " {";
    IsPrefix("on permit", " {");
    OtherKeyword(line, "policy ");
    OtherKeyword(line, "target clause");
    OtherKeyword(line, "apply ");
    OtherKeyword(line, "rule ");
    FeedPolicy(s, q, line, InsidePermit(s, q));
  }

  lemma FeedPermit(st: State, line: string, v: State)
    requires Safe(st) && st.inOnPermit && !HasPrefix(line, "policy ") && PermitLine(st, line) == Consumed(v)
    ensures Feed(st, line) == Ok(v)
  {
  }

  /** The parameters an obligation block starts from. */
  function Params(q: Policy, sym: string): map<string, string> {
    if sym in q.obligations then q.obligations[sym] else map[]
  }

  lemma ObligationHead(sym: string)
    requires Ident(sym)
    ensures var line := "obligation " + sym + " {";
            && HasPrefix(line, "obligation ") && HasSuffix(line, "{") && HeadName(line, "obligation ") == sym
            && !HasPrefix(line, "policy ") && Tight(line)
  {
    var line := "obligation " + sym + " {";
    assert line == "obligation " + (sym + " {");
    IsPrefix("obligation ", sym + " {");
    assert line == ("obligation " + sym + " ") + "{";
    IsSuffix("obligation " + sym + " ", "{");
    HeadNameIs("obligation ", sym);
    OtherKeyword(line, "policy ");
  }

  lemma ObligationHeadLine(st: State, line: string, sym: string)
    requires Safe(st) && st.inOnPermit && !st.inObligation
    requires HasPrefix(line, "obligation ") && HasSuffix(line, "{") && HeadName(line, "obligation ") == sym
    ensures var p := Current(st);
            PermitLine(st, line)
            == Consumed(SetCurrent(st, p.(obligations := p.obligations[sym := Params(p, sym)]))
                        .(inObligation := true, obligation := sym))
  {
    var p := Current(st);
    if sym in p.obligations {
      assert p.obligations[sym := Params(p, sym)] == p.obligations;
    }
  }

  lemma ObligationOpens(s: State, q: Policy, sym: string)
    requires Idle(s) && Ident(sym)
    ensures Safe(InsidePermit(s, q))
    ensures Feed(InsidePermit(s, q), "obligation " + sym + " {") == Ok(InsideObligation(s, q, sym, Params(q, sym)))
  {
    var line := "obligation " + sym + " {";
    var q' := q.(obligations := q.obligations[sym := Params(q, sym)]);
    assert (s.policies + [q])[|s.policies| := q'] == s.policies + [q'];
    ObligationHead(sym);
    ObligationHeadLine(InsidePermit(s, q), line, sym);
    FeedPermit(InsidePermit(s, q), line, InsideObligation(s, q, sym, Params(q, sym)));
  }

  lemma ParamLine(st: State, line: string, p: Pair)
    requires Safe(st) && st.inObligation && Contains(line, "=") && ParseAssignment(line) == Some(p)
    ensures PermitLine(st, line)
         == Consumed(SetCurrent(st, Current(st).(obligations :=
              Current(st).obligations[st.obligation := Current(st).obligations[st.obligation][p.key := p.value]])))
  {
  }

  lemma ParamTaken(s: State, q: Policy, sym: string, params: map<string, string>, p: Pair)
    requires Idle(s) && ParamWf(p)
    ensures Safe(InsideObligation(s, q, sym, params))
    ensures Feed(InsideObligation(s, q, sym, params), AssignmentText(p.key, p.value))
         == Ok(InsideObligation(s, q, sym, params[p.key := p.value]))
  {
    var line := AssignmentText(p.key, p.value);
    var st := InsideObligation(s, q, sym, params);
    AssignmentSplits(p.key, p.value);
    AssignmentParses(p.key, p.value);
    PolicyParameter(p.key, p.value);
    ParamLine(st, line, p);
    var q', q'' := q.(obligations := q.obligations[sym := params]),
        q.(obligations := q.obligations[sym := params[p.key := p.value]]);
    assert q'.obligations[sym := params[p.key := p.value]] == q''.obligations;
    assert (s.policies + [q'])[|s.policies| := q''] == s.policies + [q''];
    FeedPermit(st, line, InsideObligation(s, q, sym, params[p.key := p.value]));
  }

  /** The exact reason for excluding a parameter called `policy`: its line starts
      a new policy, whatever the parser is in the middle of. */
  lemma PolicyParameterMisread(s: State, value: string)
    requires Safe(s) && s.inObligation
    ensures Feed(s, AssignmentText("policy", value)) == Ok(PolicyStart(s, AssignmentText("policy", value)))
  {
    PolicyParameter("policy", value);
  }

  lemma ClosingBrace(keyword: string)
    requires |keyword| > 1
    ensures !HasPrefix("}", keyword) && !Contains("}", "=")
  {
    ForeignFirst("}", "=");
  }

  lemma ObligationCloses(s: State, q: Policy, sym: string, params: map<string, string>)
    requires Idle(s)
    ensures Safe(InsideObligation(s, q, sym, params))
    ensures Feed(InsideObligation(s, q, sym, params), "}")
        == Ok(InsidePermit(s, q.(obligations := q.obligations[sym := params])))
  {
    ClosingBrace("policy ");
    FeedPermit(InsideObligation(s, q, sym, params), "}",
               InsidePermit(s, q.(obligations := q.obligations[sym := params])));
  }

  lemma PermitCloses(s: State, q: Policy)
    requires Idle(s)
    ensures Safe(InsidePermit(s, q)) && Feed(InsidePermit(s, q), "}") == Ok(Inside(s, q))
  {
    ClosingBrace("policy ");
    FeedPermit(InsidePermit(s, q), "}", Inside(s, q));
  }

  lemma PolicyCloses(s: State, q: Policy)
    requires Idle(s)
    ensures Safe(Inside(s, q)) && Feed(Inside(s, q), "}") == Ok(s.(policies := s.policies + [q]))
  {
    ClosingBrace("policy ");
    ClosingBrace("target clause");
    ClosingBrace("apply ");
    ClosingBrace("rule ");
    ClosingBrace("on permit");
    FeedPolicy(s, q, "}", s.(policies := s.policies + [q]));
  }

  lemma FileCloses(s: State)
    requires Idle(s)
    ensures Safe(s) && Feed(s, "}") == Ok(s)
  {
    ClosingBrace("namespace ");
    ClosingBrace("import ");
    ClosingBrace("attribute ");
    ClosingBrace("condition ");
    ClosingBrace("category ");
    ClosingBrace("obligation ");
    ClosingBrace("policy ");
  }
}
