/** The parser as it runs: an object whose fields are the parser's variables, fed
    line by line, and the checks made at the end of the file. */
module AlfaReader {
  import opened Wrappers
  import opened GoStrings
  import opened AlfaParser

  class Reader {
    var namespace: string
    var importSeen: bool
    var named: map<string, string>
    var categories: map<string, string>
    var obligations: map<string, string>
    var attributes: map<string, string>
    var policies: seq<Policy>
    var policy: Option<nat>
    var rule: Option<nat>
    var inPolicy: bool
    var inRule: bool
    var inOnPermit: bool
    var inObligation: bool
    var obligation: string

    ghost function View(): State
      reads this
    {
      State(namespace, importSeen, named, categories, obligations, attributes, policies, policy, rule,
            inPolicy, inRule, inOnPermit, inObligation, obligation)
    }

    constructor ()
      ensures View() == START
    {
      namespace, importSeen, named, categories, obligations, attributes := "", false, map[], map[], map[], map[];
      policies, policy, rule := [], None, None;
      inPolicy, inRule, inOnPermit, inObligation, obligation := false, false, false, false, "";
    }

    /** How a block's outcome shows on the object. */
    ghost predicate Shows(t: Taken, before: State, taken: bool, fault: Option<Fault>)
      reads this
    {
      match t
      case Consumed(v) => taken && fault == None && View() == v
      case Rejected(f) => taken && fault == Some(f)
      case Pass => !taken && fault == None && View() == before
    }

    method TakeNamespaceLine(line: string) returns (taken: bool, fault: Option<Fault>)
      requires Safe(View())
      modifies this`namespace, this`importSeen, this`attributes, this`named, this`categories, this`obligations
      ensures Shows(NamespaceLine(old(View()), line), old(View()), taken, fault)
    {
      if HasPrefix(line, "namespace ") {
        namespace := TrimSpace(TrimSuffix(TrimSpace(TrimPrefix(line, "namespace ")), "{"));
        return true, None;
      }
      if HasPrefix(line, "import ") {
        if TrimSpace(line) == MANDATORY_IMPORT {
          importSeen := true;
        }
        return true, None;
      }
      taken, fault := TakeDeclaration(line);
    }

    method TakeDeclaration(line: string) returns (taken: bool, fault: Option<Fault>)
      requires Safe(View())
      modifies this`attributes, this`named, this`categories, this`obligations
      ensures Shows(DeclarationLine(old(View()), line), old(View()), taken, fault)
    {
      taken, fault := true, None;
      if HasPrefix(line, "attribute ") {
        var p := ParseAttribute(line);
        if p == None {
          return true, Some(BadAttribute);
        }
        attributes := attributes[p.value.key := p.value.value];
      } else {
        taken, fault := TakeNamed(line);
      }
    }

    method TakeNamed(line: string) returns (taken: bool, fault: Option<Fault>)
      requires Safe(View())
      modifies this`named, this`categories, this`obligations
      ensures Shows(NamedLine(old(View()), line), old(View()), taken, fault)
    {
      taken, fault := true, None;
      if HasPrefix(line, "condition ") {
        var p := ParseNamedCondition(line);
        if p != None {
          named := named[p.value.key := p.value.value];
        }
      } else {
        taken, fault := TakeSymbol(line);
      }
    }

    method TakeSymbol(line: string) returns (taken: bool, fault: Option<Fault>)
      requires Safe(View())
      modifies this`categories, this`obligations
      ensures Shows(SymbolLine(old(View()), line), old(View()), taken, fault)
    {
      taken, fault := true, None;
      if HasPrefix(line, "category ") {
        var p := ParseSymbolEqualsString(line, "category");
        if p == None {
          return true, Some(BadCategory);
        }
        categories := categories[p.value.key := p.value.value];
      } else if HasPrefix(line, "obligation ") {
        var p := ParseSymbolEqualsString(line, "obligation");
        if p == None {
          return true, Some(BadObligation);
        }
        obligations := obligations[p.value.key := p.value.value];
      } else {
        taken := false;
      }
    }

    method StartPolicy(line: string)
      requires Safe(View())
      modifies this
      ensures View() == PolicyStart(old(View()), line)
    {
      var name := HeadName(line, "policy ");
      inPolicy, inRule, inOnPermit, inObligation, obligation := true, false, false, false, "";
      policy := Some(|policies|);
      policies := policies + [Policy(name, "", map[], [], map[])];
    }

    method TakeTarget(line: string) returns (fault: Option<Fault>)
      requires Safe(View()) && inPolicy && !inRule && !inOnPermit && HasPrefix(line, "target clause")
      modifies this`policies
      ensures Shows(PolicyLine(old(View()), line), old(View()), true, fault)
    {
      fault := None;
      var p := policies[policy.value];
      var target := TrimSpace(TrimPrefix(line, "target clause "));
      match ParseAction(target) {
        case None => fault := Some(BadTarget);
        case Some(a) =>
          p := p.(target := target, resources := p.resources["name" := a.name]);
          if |a.args| >= 1 {
            p := p.(resources := p.resources["struct" := a.args[0]]);
          }
          policies := policies[policy.value := p];
      }
    }

    method StartRule(line: string)
      requires Safe(View()) && inPolicy && !inRule && !inOnPermit
      requires HasPrefix(line, "rule ") && !HasPrefix(line, "target clause") && !HasPrefix(line, "apply ")
      modifies this`policies, this`rule, this`inRule
      ensures Shows(PolicyLine(old(View()), line), old(View()), true, None)
    {
      var p := policies[policy.value];
      inRule := true;
      var name := HeadName(line, "rule ");
      rule := Some(|p.rules|);
      p := p.(rules := p.rules + [Rule(name, "", "")]);
      var typ := TypeFromRuleName(name);
      if typ != "" {
        p := p.(resources := p.resources["type" := typ]);
      }
      policies := policies[policy.value := p];
    }

    method TakePolicyLine(line: string) returns (taken: bool, fault: Option<Fault>)
      requires Safe(View()) && inPolicy && !inRule && !inOnPermit
      modifies this
      ensures Shows(PolicyLine(old(View()), line), old(View()), taken, fault)
    {
      taken, fault := true, None;
      if HasPrefix(line, "target clause") {
        fault := TakeTarget(line);
      } else if HasPrefix(line, "apply ") {
      } else if HasPrefix(line, "rule ") {
        StartRule(line);
      } else if HasPrefix(line, "on permit") {
        inOnPermit := true;
      } else if line == "}" {
        inPolicy, policy := false, None;
      } else {
        taken := false;
      }
    }

    method TakeRuleLine(line: string) returns (taken: bool, fault: Option<Fault>)
      requires Safe(View()) && inRule
      modifies this
      ensures Shows(RuleLine(old(View()), line), old(View()), taken, fault)
    {
      taken, fault := true, None;
      var p := policies[policy.value];
      var r := p.rules[rule.value];
      if HasPrefix(line, "permit") {
        r := r.(action := "permit");
      } else if HasPrefix(line, "deny") {
        r := r.(action := "deny");
      } else if HasPrefix(line, "condition ") {
        var cond := TrimSuffix(TrimSpace(TrimPrefix(line, "condition ")), ";");
        r := r.(condition := r.condition + ExpandCondition(cond, named) + " ");
      } else {
        taken := line == "}";
        if taken {
          inRule, rule := false, None;
        }
        return;
      }
      policies := policies[policy.value := p.(rules := p.rules[rule.value := r])];
    }

    method TakePermitLine(line: string) returns (taken: bool, fault: Option<Fault>)
      requires Safe(View()) && inOnPermit
      modifies this
      ensures Shows(PermitLine(old(View()), line), old(View()), taken, fault)
    {
      taken, fault := true, None;
      var p := policies[policy.value];
      if !inObligation && HasPrefix(line, "obligation ") && HasSuffix(line, "{") {
        inObligation, obligation := true, HeadName(line, "obligation ");
        if obligation !in p.obligations {
          p := p.(obligations := p.obligations[obligation := map[]]);
        }
        policies := policies[policy.value := p];
      } else if inObligation && Contains(line, "=") {
        match ParseAssignment(line) {
          case None => fault := Some(BadAssignment);
          case Some(a) =>
            var params := p.obligations[obligation][a.key := a.value];
            policies := policies[policy.value := p.(obligations := p.obligations[obligation := params])];
        }
      } else if inObligation && line == "}" {
        inObligation, obligation := false, "";
      } else if !inObligation && line == "}" {
        inOnPermit := false;
      } else {
        taken := false;
      }
    }

    method ReadLine(raw: string) returns (fault: Option<Fault>)
      requires Safe(View())
      modifies this
      ensures match Step(old(View()), raw)
              case Ok(v) => fault == None && View() == v
              case Err(f) => fault == Some(f)
    {
      var line := TrimSpace(raw);
      if line == "" {
        return None;
      }
      var taken := false;
      fault := None;
      if !inPolicy && !inRule && !inOnPermit {
        taken, fault := TakeNamespaceLine(line);
        if taken {
          return;
        }
      }
      if HasPrefix(line, "policy ") {
        StartPolicy(line);
        return;
      }
      if inPolicy && !inRule && !inOnPermit {
        taken, fault := TakePolicyLine(line);
      } else if inRule {
        taken, fault := TakeRuleLine(line);
      } else if inOnPermit {
        taken, fault := TakePermitLine(line);
      }
    }

    method ReadLines(lines: seq<string>) returns (fault: Option<Fault>)
      requires Safe(View())
      modifies this
      ensures match Lines(old(View()), lines)
              case Ok(v) => fault == None && View() == v
              case Err(f) => fault == Some(f)
    {
      for i := 0 to |lines|
        invariant Safe(View())
        invariant Lines(View(), lines[i..]) == Lines(old(View()), lines)
      {
        assert lines[i..][0] == lines[i] && lines[i..][1..] == lines[i + 1..];
        fault := ReadLine(lines[i]);
        if fault != None {
          return;
        }
      }
      fault := None;
    }

    /** The checks at the end of the file; the ranges over maps are in any order. */
    method Finish() returns (fault: Option<Fault>)
      ensures fault == None <==> namespace != "" && importSeen && Consistent(View())
    {
      if namespace == "" {
        return Some(NoNamespace);
      }
      if !importSeen {
        return Some(NoImport);
      }
      var ok := CheckAttributes(attributes, categories);
      var i := 0;
      while ok && i < |policies|
        invariant 0 <= i <= |policies|
        invariant ok ==> AttributesOk(attributes, categories) && forall j | 0 <= j < i :: PolicyOk(View(), policies[j])
        invariant !ok ==> !Consistent(View())
      {
        ok := CheckPolicy(policies[i].obligations, obligations, attributes, categories);
        i := i + 1;
      }
      fault := if ok then None else Some(Invalid);
    }
  }

  // -------------------------------------------------------------- validation

  /** Every attribute belongs to a declared category, or to the environment. */
  ghost predicate AttributesOk(attributes: map<string, string>, categories: map<string, string>) {
    forall a | a in attributes :: attributes[a] == "environmentCat" || attributes[a] in categories
  }

  /** The parameter is a declared attribute whose category has the given URI. */
  ghost predicate ParamOk(param: string, uri: string, attributes: map<string, string>,
                          categories: map<string, string>) {
    param in attributes && attributes[param] in categories && categories[attributes[param]] == uri
  }

  /** The obligation is declared, some category has its URI, and its parameters fit. */
  ghost predicate ObligationOk(sym: string, params: map<string, string>, obligations: map<string, string>,
                               attributes: map<string, string>, categories: map<string, string>) {
    && sym in obligations
    && (exists c :: c in categories && categories[c] == obligations[sym])
    && (forall p | p in params :: ParamOk(p, obligations[sym], attributes, categories))
  }

  ghost predicate ObligationsOk(used: map<string, map<string, string>>, obligations: map<string, string>,
                                attributes: map<string, string>, categories: map<string, string>) {
    forall sym | sym in used :: ObligationOk(sym, used[sym], obligations, attributes, categories)
  }

  ghost predicate PolicyOk(s: State, p: Policy) {
    ObligationsOk(p.obligations, s.obligations, s.attributes, s.categories)
  }

  ghost predicate Consistent(s: State) {
    AttributesOk(s.attributes, s.categories) && forall i | 0 <= i < |s.policies| :: PolicyOk(s, s.policies[i])
  }

  method CheckAttributes(attributes: map<string, string>, categories: map<string, string>) returns (ok: bool)
    ensures ok <==> AttributesOk(attributes, categories)
  {
    var left := attributes.Keys;
    while left != {}
      invariant left <= attributes.Keys
      invariant forall a | a in attributes && a !in left ::
          attributes[a] == "environmentCat" || attributes[a] in categories
      decreases left
    {
      var a :| a in left;
      left := left - {a};
      if attributes[a] == "environmentCat" {
        continue;
      }
      if attributes[a] !in categories {
        return false;
      }
    }
    ok := true;
  }

  /** The categories that have the obligation's URI. */
  method AllowedCategories(categories: map<string, string>, uri: string) returns (allowed: set<string>)
    ensures allowed == set c | c in categories && categories[c] == uri
  {
    allowed := {};
    var left := categories.Keys;
    while left != {}
      invariant left <= categories.Keys
      invariant allowed == set c | c in categories && c !in left && categories[c] == uri
      decreases left
    {
      var c :| c in left;
      left := left - {c};
      if categories[c] == uri {
        allowed := allowed + {c};
      }
    }
  }

  method CheckParams(params: map<string, string>, allowed: set<string>, attributes: map<string, string>)
    returns (ok: bool)
    ensures ok <==> forall p | p in params :: p in attributes && attributes[p] in allowed
  {
    var left := params.Keys;
    while left != {}
      invariant left <= params.Keys
      invariant forall p | p in params && p !in left :: p in attributes && attributes[p] in allowed
      decreases left
    {
      var p :| p in left;
      left := left - {p};
      if p !in attributes || attributes[p] !in allowed {
        return false;
      }
    }
    ok := true;
  }

  method CheckObligation(sym: string, params: map<string, string>, obligations: map<string, string>,
                         attributes: map<string, string>, categories: map<string, string>) returns (ok: bool)
    ensures ok <==> ObligationOk(sym, params, obligations, attributes, categories)
  {
    if sym !in obligations {
      return false;
    }
    var allowed := AllowedCategories(categories, obligations[sym]);
    if |allowed| == 0 {
      assert forall c | c in categories && categories[c] == obligations[sym] :: c in allowed;
      return false;
    }
    var c :| c in allowed;
    ok := CheckParams(params, allowed, attributes);
  }

  method CheckPolicy(used: map<string, map<string, string>>, obligations: map<string, string>,
                     attributes: map<string, string>, categories: map<string, string>) returns (ok: bool)
    ensures ok <==> ObligationsOk(used, obligations, attributes, categories)
  {
    var left := used.Keys;
    while left != {}
      invariant left <= used.Keys
      invariant forall sym | sym in used && sym !in left ::
          ObligationOk(sym, used[sym], obligations, attributes, categories)
      decreases left
    {
      var sym :| sym in left;
      left := left - {sym};
      var fits := CheckObligation(sym, used[sym], obligations, attributes, categories);
      if !fits {
        return false;
      }
    }
    ok := true;
  }
}
