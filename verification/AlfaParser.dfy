/** The line-driven ALFA parser. The state is the parser's variables; the current
    policy and rule are positions in the lists they were appended to, absent
    where the source holds nil. */
module AlfaParser {
  import opened Wrappers
  import opened GoStrings

  // -------------------------------------------------------------- the result

  datatype Rule = Rule(name: string, action: string, condition: string)

  datatype Policy = Policy(
    name: string,
    target: string,
    resources: map<string, string>,
    rules: seq<Rule>,
    obligations: map<string, map<string, string>>)

  datatype Fault =
    | BadAttribute | BadCategory | BadObligation | BadTarget | BadAssignment
    | NoNamespace | NoImport | Invalid

  // ---------------------------------------------------------- string helpers

  /** The first run of characters that are not blank, after leading blanks. */
  function Field(s: string): string {
    TakeField(TrimLeft(s, SPACES))
  }

  function TakeField(s: string): (f: string)
    ensures |f| <= |s| && f == s[..|f|]
  {
    if s == "" || s[0] in SPACES then "" else [s[0]] + TakeField(s[1..])
  }

  /** `strings.Fields` has at least two elements. */
  predicate TwoFields(s: string) {
    var t := TrimLeft(s, SPACES);
    Field(s) != "" && Field(t[|Field(s)|..]) != ""
  }

  /** The text between the first two quotes, or nothing. */
  function ExtractQuotedValue(input: string): string {
    var start := Index(input, "\"");
    if start < 0 then ""
    else
      var tail := input[start + 1..];
      var end := Index(tail, "\"");
      if end < 0 then "" else tail[..end]
  }

  datatype Pair = Pair(key: string, value: string)

  function ParseSymbolEqualsString(line: string, keyword: string): Option<Pair> {
    var rest := TrimSpace(TrimPrefix(line, keyword));
    var eq := Index(rest, "=");
    if eq < 0 then None
    else
      var sym := TrimSpace(rest[..eq]);
      var uri := ExtractQuotedValue(TrimSpace(rest[eq + 1..]));
      if sym == "" || uri == "" then None else Some(Pair(sym, uri))
  }

  /** The characters up to the next blank or tab. */
  function UpToBlank(s: string): string {
    if s == "" || s[0] == ' ' || s[0] == '\t' then "" else [s[0]] + UpToBlank(s[1..])
  }

  function ExtractKeyToken(body: string, key: string): string {
    var start := Index(body, key);
    if start < 0 then "" else TrimSpace(UpToBlank(body[start + |key|..]))
  }

  function ParseAttribute(line: string): Option<Pair> {
    var rest := TrimSpace(TrimPrefix(line, "attribute "));
    var nameEnd := Index(rest, "{");
    if nameEnd < 0 then None
    else
      var name := TrimSpace(rest[..nameEnd]);
      var body := TrimSpace(TrimSuffix(TrimSpace(rest[nameEnd + 1..]), "}"));
      var cat := ExtractKeyToken(body, "category=");
      if name == "" || cat == "" then None else Some(Pair(name, cat))
  }

  /** None: the line is ignored. */
  function ParseNamedCondition(line: string): Option<Pair> {
    var rest := TrimSpace(TrimPrefix(line, "condition "));
    if !TwoFields(rest) then None
    else Some(Pair(Field(rest), TrimSpace(rest[|Field(rest)|..])))
  }

  function ParseAssignment(line: string): Option<Pair> {
    var eq := Index(line, "=");
    if eq < 0 then None
    else
      var key := TrimSpace(line[..eq]);
      var value := ExtractQuotedValue(TrimSpace(line[eq + 1..]));
      if key == "" || value == "" then None else Some(Pair(key, value))
  }

  function LastIndexFrom(s: string, c: char, n: nat): (r: int)
    requires n <= |s|
    ensures r < n && (r >= 0 ==> s[r] == c)
  {
    if n == 0 then -1 else if s[n - 1] == c then n - 1 else LastIndexFrom(s, c, n - 1)
  }

  function NonEmptyTrimmed(parts: seq<string>): seq<string> {
    if parts == [] then []
    else (if TrimSpace(parts[0]) == "" then [] else [TrimSpace(parts[0])]) + NonEmptyTrimmed(parts[1..])
  }

  datatype Action = Action(name: string, args: seq<string>)

  function ParseAction(target: string): Option<Action> {
    if !Contains(target, "Action==") then None
    else
      var raw := ExtractQuotedValue(target);
      if raw == "" then None
      else
        var open := Index(raw, "(");
        var close := LastIndexFrom(raw, ')', |raw|);
        if open < 0 || close < 0 || close < open then Some(Action(TrimSpace(raw), []))
        else Some(Action(TrimSpace(raw[..open]), NonEmptyTrimmed(Split(raw[open + 1..close], ","))))
  }

  function ToLower(s: string): (r: string)
    ensures |r| == |s|
  {
    seq(|s|, i requires 0 <= i < |s| => if 'A' <= s[i] <= 'Z' then s[i] - 'A' + 'a' else s[i])
  }

  function TypeFromRuleName(name: string): string {
    var n := TrimPrefix(ToLower(TrimSpace(name)), "access");
    if Contains(n, "decisionwithaggregation") || Contains(n, "decisionwithaggr")
       || Contains(n, "withaggregation") || Contains(n, "withaggr") then "decisionwithaggregation"
    else if HasPrefix(n, "write") then "write"
    else if HasPrefix(n, "read") then "read"
    else if HasPrefix(n, "decision") then "decision"
    else ""
  }

  function ExpandCondition(cond: string, named: map<string, string>): string {
    if cond in named then named[cond] else cond
  }

  /** The name in front of an opening brace. */
  function HeadName(line: string, keyword: string): string {
    TrimSpace(TrimSuffix(TrimSpace(TrimPrefix(line, keyword)), "{"))
  }

  // ----------------------------------------------------------------- state

  datatype State = State(
    namespace: string,
    importSeen: bool,
    named: map<string, string>,
    categories: map<string, string>,
    obligations: map<string, string>,
    attributes: map<string, string>,
    policies: seq<Policy>,
    policy: Option<nat>,
    rule: Option<nat>,
    inPolicy: bool,
    inRule: bool,
    inOnPermit: bool,
    inObligation: bool,
    obligation: string)

  const START: State :=
    State("", false, map[], map[], map[], map[], [], None, None, false, false, false, false, "")

  /** What the parser relies on when it dereferences: inside a policy there is a
      current policy, inside a rule that policy has a current rule, and inside an
      obligation block the block's map exists. */
  predicate Safe(s: State) {
    && (s.inPolicy ==> s.policy.Some? && s.policy.value < |s.policies|)
    && (s.inRule ==> s.inPolicy && s.rule.Some? && s.rule.value < |s.policies[s.policy.value].rules|)
    && (s.inOnPermit ==> s.inPolicy && !s.inRule)
    && (s.inObligation ==> s.inOnPermit && s.obligation in s.policies[s.policy.value].obligations)
  }

  /** What one block of the loop body does with a line: it consumes it, rejects
      the file, or leaves the line to the following blocks. */
  datatype Taken = Consumed(state: State) | Rejected(fault: Fault) | Pass

  predicate TakenSafe(t: Taken) {
    t.Consumed? ==> Safe(t.state)
  }

  function Current(s: State): Policy
    requires Safe(s) && s.inPolicy
  {
    s.policies[s.policy.value]
  }

  function SetCurrent(s: State, p: Policy): State
    requires Safe(s) && s.inPolicy
  {
    s.(policies := s.policies[s.policy.value := p])
  }

  const MANDATORY_IMPORT: string := "import Oasis.Attributes.*"

  function NamespaceLine(s: State, line: string): (t: Taken)
    requires Safe(s)
    ensures TakenSafe(t)
  {
    if HasPrefix(line, "namespace ") then
      Consumed(s.(namespace := TrimSpace(TrimSuffix(TrimSpace(TrimPrefix(line, "namespace ")), "{"))))
    else if HasPrefix(line, "import ") then
      Consumed(if TrimSpace(line) == MANDATORY_IMPORT then s.(importSeen := true) else s)
    else
      DeclarationLine(s, line)
  }

  function DeclarationLine(s: State, line: string): (t: Taken)
    requires Safe(s)
    ensures TakenSafe(t)
  {
    if HasPrefix(line, "attribute ") then
      match ParseAttribute(line)
      case None => Rejected(BadAttribute)
      case Some(p) => Consumed(s.(attributes := s.attributes[p.key := p.value]))
    else
      NamedLine(s, line)
  }

  function NamedLine(s: State, line: string): (t: Taken)
    requires Safe(s)
    ensures TakenSafe(t)
  {
    if HasPrefix(line, "condition ") then
      match ParseNamedCondition(line)
      case None => Consumed(s)
      case Some(p) => Consumed(s.(named := s.named[p.key := p.value]))
    else
      SymbolLine(s, line)
  }

  function SymbolLine(s: State, line: string): (t: Taken)
    requires Safe(s)
    ensures TakenSafe(t)
  {
    if HasPrefix(line, "category ") then
      match ParseSymbolEqualsString(line, "category")
      case None => Rejected(BadCategory)
      case Some(p) => Consumed(s.(categories := s.categories[p.key := p.value]))
    else if HasPrefix(line, "obligation ") then
      match ParseSymbolEqualsString(line, "obligation")
      case None => Rejected(BadObligation)
      case Some(p) => Consumed(s.(obligations := s.obligations[p.key := p.value]))
    else
      Pass
  }

  function PolicyStart(s: State, line: string): (r: State)
    requires Safe(s)
    ensures Safe(r)
  {
    s.(policies := s.policies + [Policy(HeadName(line, "policy "), "", map[], [], map[])],
       policy := Some(|s.policies|),
       inPolicy := true, inRule := false, inOnPermit := false, inObligation := false, obligation := "")
  }

  function PolicyLine(s: State, line: string): (t: Taken)
    requires Safe(s) && s.inPolicy && !s.inRule && !s.inOnPermit
    ensures TakenSafe(t)
  {
    var p := Current(s);
    if HasPrefix(line, "target clause") then
      var target := TrimSpace(TrimPrefix(line, "target clause "));
      match ParseAction(target)
      case None => Rejected(BadTarget)
      case Some(a) =>
        var named := p.resources["name" := a.name];
        Consumed(SetCurrent(s, p.(target := target,
                                  resources := if a.args == [] then named else named["struct" := a.args[0]])))
    else if HasPrefix(line, "apply ") then
      Consumed(s)
    else if HasPrefix(line, "rule ") then
      var name := HeadName(line, "rule ");
      var typ := TypeFromRuleName(name);
      Consumed(SetCurrent(s, p.(rules := p.rules + [Rule(name, "", "")],
                                resources := if typ == "" then p.resources else p.resources["type" := typ]))
               .(rule := Some(|p.rules|), inRule := true))
    else if HasPrefix(line, "on permit") then
      Consumed(s.(inOnPermit := true))
    else if line == "}" then
      Consumed(s.(inPolicy := false, policy := None))
    else
      Pass
  }

  function SetRule(s: State, r: Rule): State
    requires Safe(s) && s.inRule
  {
    SetCurrent(s, Current(s).(rules := Current(s).rules[s.rule.value := r]))
  }

  function RuleLine(s: State, line: string): (t: Taken)
    requires Safe(s) && s.inRule
    ensures TakenSafe(t)
  {
    var r := Current(s).rules[s.rule.value];
    if HasPrefix(line, "permit") then Consumed(SetRule(s, r.(action := "permit")))
    else if HasPrefix(line, "deny") then Consumed(SetRule(s, r.(action := "deny")))
    else if HasPrefix(line, "condition ") then
      var cond := TrimSuffix(TrimSpace(TrimPrefix(line, "condition ")), ";");
      Consumed(SetRule(s, r.(condition := r.condition + ExpandCondition(cond, s.named) + " ")))
    else if line == "}" then
      Consumed(s.(inRule := false, rule := None))
    else
      Pass
  }

  function PermitLine(s: State, line: string): (t: Taken)
    requires Safe(s) && s.inOnPermit
    ensures TakenSafe(t)
  {
    var p := Current(s);
    if !s.inObligation && HasPrefix(line, "obligation ") && HasSuffix(line, "{") then
      var sym := HeadName(line, "obligation ");
      var q := if sym in p.obligations then p else p.(obligations := p.obligations[sym := map[]]);
      Consumed(SetCurrent(s, q).(inObligation := true, obligation := sym))
    else if s.inObligation && Contains(line, "=") then
      match ParseAssignment(line)
      case None => Rejected(BadAssignment)
      case Some(a) =>
        Consumed(SetCurrent(s, p.(obligations :=
          p.obligations[s.obligation := p.obligations[s.obligation][a.key := a.value]])))
    else if s.inObligation && line == "}" then
      Consumed(s.(inObligation := false, obligation := ""))
    else if !s.inObligation && line == "}" then
      Consumed(s.(inOnPermit := false))
    else
      Pass
  }

  /** The loop body on a line that is trimmed and not empty. */
  function Feed(s: State, line: string): (r: Result<State, Fault>)
    requires Safe(s)
    ensures r.Ok? ==> Safe(r.value)
  {
    var first := if !s.inPolicy && !s.inRule && !s.inOnPermit then NamespaceLine(s, line) else Pass;
    if first.Consumed? then Ok(first.state)
    else if first.Rejected? then Err(first.fault)
    else if HasPrefix(line, "policy ") then Ok(PolicyStart(s, line))
    else
      var t := if s.inPolicy && !s.inRule && !s.inOnPermit then PolicyLine(s, line)
               else if s.inRule then RuleLine(s, line)
               else if s.inOnPermit then PermitLine(s, line)
               else Pass;
      match t
      case Consumed(v) => Ok(v)
      case Rejected(f) => Err(f)
      case Pass => Ok(s)
  }

  function Step(s: State, raw: string): (r: Result<State, Fault>)
    requires Safe(s)
    ensures r.Ok? ==> Safe(r.value)
  {
    var line := TrimSpace(raw);
    if line == "" then Ok(s) else Feed(s, line)
  }

  /** On every sequence of lines the invariant holds, so nothing nil is dereferenced. */
  function Lines(s: State, lines: seq<string>): (r: Result<State, Fault>)
    requires Safe(s)
    ensures r.Ok? ==> Safe(r.value)
    decreases |lines|
  {
    if lines == [] then Ok(s)
    else
      match Step(s, lines[0])
      case Err(f) => Err(f)
      case Ok(v) => Lines(v, lines[1..])
  }

  /** The lines that matter: trimmed, and not blank. */
  function Clean(lines: seq<string>): seq<string> {
    if lines == [] then []
    else (if TrimSpace(lines[0]) == "" then [] else [TrimSpace(lines[0])]) + Clean(lines[1..])
  }

  lemma {:induction false} TrimLeftStops(s: string, cut: string)
    ensures TrimLeft(s, cut) == "" || TrimLeft(s, cut)[0] !in cut
    ensures exists n :: 0 <= n <= |s| && TrimLeft(s, cut) == s[n..]
  {
    if s != "" && s[0] in cut {
      TrimLeftStops(s[1..], cut);
      var n :| 0 <= n <= |s| - 1 && TrimLeft(s[1..], cut) == s[1..][n..];
      assert s[1..][n..] == s[n + 1..];
    } else {
      assert s[0..] == s;
    }
  }

  lemma {:induction false} TrimRightStops(s: string, cut: string)
    ensures var t := TrimRight(s, cut); t <= s && (t == "" || t[|t| - 1] !in cut)
  {
    if s != "" && s[|s| - 1] in cut {
      TrimRightStops(s[..|s| - 1], cut);
    }
  }

  /** A trimmed line stays as it is when it is trimmed again. */
  lemma TrimTwice(s: string)
    ensures TrimSpace(TrimSpace(s)) == TrimSpace(s)
  {
    var left := TrimLeft(s, SPACES);
    TrimLeftStops(s, SPACES);
    TrimRightStops(left, SPACES);
    TrimNothing(TrimSpace(s), SPACES);
  }

  /** Indentation and blank lines do not matter. */
  lemma {:induction false} LinesClean(s: State, lines: seq<string>)
    requires Safe(s)
    ensures Lines(s, lines) == Lines(s, Clean(lines))
    decreases |lines|
  {
    if lines != [] {
      var line := TrimSpace(lines[0]);
      TrimTwice(lines[0]);
      if line == "" {
        assert Clean(lines) == [] + Clean(lines[1..]) == Clean(lines[1..]);
        LinesClean(s, lines[1..]);
      } else {
        assert Clean(lines)[1..] == Clean(lines[1..]);
        match Step(s, lines[0]) {
          case Err(_) =>
          case Ok(v) => LinesClean(v, lines[1..]);
        }
      }
    }
  }
}
