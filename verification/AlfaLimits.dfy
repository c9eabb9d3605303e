/** Exactly when the parser gives back what was rendered. */
module AlfaLimits {
  import opened Wrappers
  import opened GoStrings
  import opened AlfaParser
  import opened AlfaText
  import opened AlfaRender
  import AlfaInverse

  /** How many of the lines start a policy. */
  function Starts(lines: seq<string>): nat {
    if lines == [] then 0 else (if HasPrefix(lines[0], "policy ") then 1 else 0) + Starts(lines[1..])
  }

  lemma {:induction false} StartsConcat(a: seq<string>, b: seq<string>)
    ensures Starts(a + b) == Starts(a) + Starts(b)
    decreases |a|
  {
    if a == [] {
      assert a + b == b;
    } else {
      assert (a + b)[1..] == a[1..] + b;
      StartsConcat(a[1..], b);
    }
  }

  // ----------------------------------------------- what the parser has seen

  lemma PolicyIsNoDeclaration(s: State, line: string)
    requires Safe(s) && HasPrefix(line, "policy ")
    ensures NamespaceLine(s, line) == Pass
  {
    assert line[0..7][0] == line[0] && line[0..7][1] == line[1];
    OtherKeyword(line, "namespace ");
    OtherKeyword(line, "import ");
    OtherKeyword(line, "attribute ");
    OtherKeyword(line, "condition ");
    OtherKeyword(line, "category ");
    OtherKeyword(line, "obligation ");
  }

  /** A line adds a policy exactly if it starts with the keyword, whatever the parser is
      in the middle of. */
  lemma FeedCounts(s: State, line: string)
    requires Safe(s) && Feed(s, line).Ok?
    ensures |Feed(s, line).value.policies| == |s.policies| + Starts([line])
  {
    if HasPrefix(line, "policy ") {
      PolicyIsNoDeclaration(s, line);
    } else {
      NamespaceKeeps(s, line);
      BlocksKeep(s, line);
    }
  }

  /** The block consumes the line without adding a policy, if it consumes it. */
  predicate Keeps(s: State, t: Taken) {
    t.Consumed? ==> |t.state.policies| == |s.policies|
  }

  lemma NamespaceKeeps(s: State, line: string)
    requires Safe(s)
    ensures Keeps(s, NamespaceLine(s, line))
  {
    DeclarationKeeps(s, line);
  }

  lemma DeclarationKeeps(s: State, line: string)
    requires Safe(s)
    ensures Keeps(s, DeclarationLine(s, line))
  {
    NamedKeeps(s, line);
  }

  lemma NamedKeeps(s: State, line: string)
    requires Safe(s)
    ensures Keeps(s, NamedLine(s, line))
  {
    SymbolKeeps(s, line);
  }

  lemma SymbolKeeps(s: State, line: string)
    requires Safe(s)
    ensures Keeps(s, SymbolLine(s, line))
  {
  }

  lemma BlocksKeep(s: State, line: string)
    requires Safe(s)
    ensures s.inPolicy && !s.inRule && !s.inOnPermit ==> Keeps(s, PolicyLine(s, line))
    ensures s.inRule ==> Keeps(s, RuleLine(s, line))
    ensures s.inOnPermit ==> Keeps(s, PermitLine(s, line))
  {
    if s.inPolicy && !s.inRule && !s.inOnPermit {
      PolicyLineKeeps(s, line);
    }
    if s.inRule {
      RuleLineKeeps(s, line);
    }
    if s.inOnPermit {
      PermitLineKeeps(s, line);
    }
  }

  lemma PolicyLineKeeps(s: State, line: string)
    requires Safe(s) && s.inPolicy && !s.inRule && !s.inOnPermit
    ensures Keeps(s, PolicyLine(s, line))
  {
  }

  lemma RuleLineKeeps(s: State, line: string)
    requires Safe(s) && s.inRule
    ensures Keeps(s, RuleLine(s, line))
  {
  }

  lemma PermitLineKeeps(s: State, line: string)
    requires Safe(s) && s.inOnPermit
    ensures Keeps(s, PermitLine(s, line))
  {
  }

  /** The parser has as many policies as the text has lines that start one. */
  lemma {:induction false} LinesCount(s: State, lines: seq<string>)
    requires Safe(s) && Lines(s, lines).Ok?
    ensures |Lines(s, lines).value.policies| == |s.policies| + Starts(Clean(lines))
    decreases |lines|
  {
    if lines != [] {
      var line, v := TrimSpace(lines[0]), Step(s, lines[0]).value;
      LinesCount(v, lines[1..]);
      StartsConcat(if line == "" then [] else [line], Clean(lines[1..]));
      if line != "" {
        FeedCounts(s, line);
      }
    }
  }

  // ------------------------------------------------- what the rendering has

  lemma {:induction false} ParamsStart(ps: seq<Pair>)
    requires forall i | 0 <= i < |ps| :: ParamWritten(ps[i])
    requires exists i :: 0 <= i < |ps| && ps[i].key == "policy"
    ensures Starts(ParamLines(ps)) > 0
  {
    PolicyParameter(ps[0].key, ps[0].value);
    if ps[0].key != "policy" {
      var i :| 0 <= i < |ps| && ps[i].key == "policy";
      assert ps[1..][i - 1] == ps[i];
      ParamsStart(ps[1..]);
    }
  }

  lemma {:induction false} ObligationsStart(os: seq<ObligationAst>)
    requires forall i | 0 <= i < |os| :: ObligationWritten(os[i])
    requires exists i :: 0 <= i < |os| && !Readable(os[i])
    ensures Starts(ObligationsLines(os)) > 0
  {
    var o := os[0];
    StartsConcat(ObligationLines(o), ObligationsLines(os[1..]));
    if Readable(o) {
      var i :| 0 <= i < |os| && !Readable(os[i]);
      assert os[1..][i - 1] == os[i];
      ObligationsStart(os[1..]);
    } else {
      ParamsStart(o.params);
      StartsConcat(["obligation " + o.sym + " {"] + ParamLines(o.params), ["}"]);
      StartsConcat(["obligation " + o.sym + " {"], ParamLines(o.params));
    }
  }

  lemma PolicyStarts(p: PolicyAst)
    requires PolicyWritten(p)
    ensures Starts(PolicyLines(p)) >= 1
    ensures !AllReadable(p) ==> Starts(PolicyLines(p)) > 1
  {
    var head := ["policy " + p.name + " {", "target clause " + TargetText(p.action, p.args), "apply denyUnlessPermit"];
    var permit := ["on permit {"] + ObligationsLines(p.onPermit) + ["}"];
    assert "policy " + p.name + " {" == "policy " + (p.name + " {");
    IsPrefix("policy ", p.name + " {");
    StartsConcat(head + RulesLines(p.rules) + permit, ["}"]);
    StartsConcat(head + RulesLines(p.rules), permit);
    StartsConcat(head, RulesLines(p.rules));
    if !AllReadable(p) {
      ObligationsStart(p.onPermit);
      StartsConcat(["on permit {"] + ObligationsLines(p.onPermit), ["}"]);
      StartsConcat(["on permit {"], ObligationsLines(p.onPermit));
    }
  }

  lemma {:induction false} PoliciesStart(ps: seq<PolicyAst>)
    requires forall i | 0 <= i < |ps| :: PolicyWritten(ps[i])
    ensures Starts(PoliciesLines(ps)) >= |ps|
    ensures (exists i :: 0 <= i < |ps| && !AllReadable(ps[i])) ==> Starts(PoliciesLines(ps)) > |ps|
  {
    if ps != [] {
      PolicyStarts(ps[0]);
      PoliciesStart(ps[1..]);
      StartsConcat(PolicyLines(ps[0]), PoliciesLines(ps[1..]));
      if i :| 0 <= i < |ps| && !AllReadable(ps[i]) {
        assert i > 0 ==> ps[1..][i - 1] == ps[i];
      }
    }
  }

  lemma RenderStarts(ps: PolicySetAst)
    requires SetWritten(ps)
    ensures Starts(Render(ps)) >= Starts(PoliciesLines(ps.policies))
  {
    var head := ["namespace " + ps.namespace + " {", MANDATORY_IMPORT];
    StartsConcat(head + DeclLines(ps.decls) + PoliciesLines(ps.policies), ["}"]);
    StartsConcat(head + DeclLines(ps.decls), PoliciesLines(ps.policies));
  }

  lemma {:induction false} BuiltCount(ps: seq<PolicyAst>, named: map<string, string>)
    ensures |BuildPolicies(ps, named)| == |ps|
  {
    if ps != [] {
      BuiltCount(ps[1..], named);
    }
  }

  /** For sets that are written with identifiers and quotable texts: parsing gives back
      what was rendered exactly if no obligation has a parameter called `policy`. */
  lemma ParseInvertsRenderIff(ps: PolicySetAst, lines: seq<string>)
    requires SetWritten(ps) && Clean(lines) == Render(ps)
    ensures Lines(START, lines) == Ok(Rebuilt(ps)) <==>
            forall i | 0 <= i < |ps.policies| :: AllReadable(ps.policies[i])
  {
    if SetWf(ps) {
      AlfaInverse.ParseInvertsRender(ps, lines);
    } else {
      var named := DeclareAll(START.(namespace := ps.namespace, importSeen := true), ps.decls).named;
      PoliciesStart(ps.policies);
      RenderStarts(ps);
      BuiltCount(ps.policies, named);
      if Lines(START, lines).Ok? {
        LinesCount(START, lines);
      }
    }
  }
}
