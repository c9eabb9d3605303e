/** How the parser's string helpers read each line of a rendered policy file. */
module AlfaText {
  import opened Wrappers
  import opened GoStrings
  import opened Identifiers
  import opened AlfaParser

  /** Text that may stand between quotes. */
  predicate Quotable(s: string) {
    s != "" && '"' !in s
  }

  lemma IdentTight(s: string)
    requires Ident(s)
    ensures Tight(s) && TrimSpace(s) == s
  {
    assert IdentChar(s[0]) && IdentChar(s[|s| - 1]);
    TrimNothing(s, SPACES);
  }

  lemma IdentForeign(s: string, c: char)
    requires Ident(s) && !IdentChar(c)
    ensures c !in s
  {
  }

  lemma TrailingBlank(s: string)
    requires Tight(s)
    ensures TrimSpace(s + " ") == s
  {
    assert "" + s + " " == s + " ";
    TrimPadded("", s, " ", SPACES);
  }

  lemma LeadingBlank(s: string)
    requires Tight(s)
    ensures TrimSpace(" " + s) == s
  {
    assert " " + s + "" == " " + s;
    TrimPadded(" ", s, "", SPACES);
  }

  // ------------------------------------------------------------ brace heads

  lemma HeadNameIs(keyword: string, name: string)
    requires keyword != "" && Ident(name)
    ensures HeadName(keyword + name + " {", keyword) == name
  {
    assert keyword + name + " {" == keyword + (name + " {");
    IsPrefix(keyword, name + " {");
    IdentTight(name);
    TightTrim(name + " {");
    assert name + " {" == (name + " ") + "{";
    IsSuffix(name + " ", "{");
    TrailingBlank(name);
  }

  // ---------------------------------------------------------------- quoting

  function Quoted(value: string): string {
    "\"" + value + "\""
  }

  lemma QuotedValue(before: string, value: string, after: string)
    requires '"' !in before && Quotable(value)
    ensures ExtractQuotedValue(before + Quoted(value) + after) == value
  {
    var s := before + Quoted(value) + after;
    var tail := value + "\"" + after;
    assert s == before + "\"" + tail;
    FirstForeign(before, "\"", tail);
    assert s[|before| + 1..] == tail;
    FirstForeign(value, "\"", after);
    assert tail[..|value|] == value;
  }

  function AssignmentText(key: string, value: string): string {
    key + " = " + Quoted(value)
  }

  lemma AssignmentSplits(key: string, value: string)
    requires Ident(key) && Quotable(value)
    ensures var s := AssignmentText(key, value);
            && Tight(s) && Index(s, "=") == |key| + 1
            && TrimSpace(s[..|key| + 1]) == key
            && ExtractQuotedValue(TrimSpace(s[|key| + 2..])) == value
  {
    var s := AssignmentText(key, value);
    IdentTight(key);
    IdentForeign(key, '=');
    assert s == (key + " ") + "=" + (" " + Quoted(value));
    FirstForeign(key + " ", "=", " " + Quoted(value));
    assert s[..|key| + 1] == key + " ";
    TrailingBlank(key);
    assert s[|key| + 2..] == " " + Quoted(value);
    LeadingBlank(Quoted(value));
    assert "" + Quoted(value) + "" == Quoted(value);
    QuotedValue("", value, "");
  }

  lemma AssignmentParses(key: string, value: string)
    requires Ident(key) && Quotable(value)
    ensures ParseAssignment(AssignmentText(key, value)) == Some(Pair(key, value))
  {
    AssignmentSplits(key, value);
  }

  lemma SymbolParses(keyword: string, key: string, value: string)
    requires keyword != "" && Ident(key) && Quotable(value)
    ensures ParseSymbolEqualsString(keyword + " " + AssignmentText(key, value), keyword) == Some(Pair(key, value))
  {
    var rest := AssignmentText(key, value);
    assert keyword + " " + rest == keyword + (" " + rest);
    IsPrefix(keyword, " " + rest);
    AssignmentSplits(key, value);
    LeadingBlank(rest);
  }

  // -------------------------------------------------------------- attributes

  function AttributeBody(name: string, cat: string, typ: string): string {
    "id=" + Quoted(name) + " category=" + cat + " type=" + typ
  }

  function AttributeText(name: string, cat: string, typ: string): string {
    name + "{" + AttributeBody(name, cat, typ) + "}"
  }

  lemma {:induction false} UpToBlankStops(a: string, b: string)
    requires (forall i | 0 <= i < |a| :: a[i] != ' ' && a[i] != '\t') && b != "" && b[0] == ' '
    ensures UpToBlank(a + b) == a
  {
    if a == "" {
      assert a + b == b;
    } else {
      assert (a + b)[1..] == a[1..] + b;
      UpToBlankStops(a[1..], b);
    }
  }

  lemma CategoryFound(name: string, cat: string, typ: string)
    requires Ident(name) && Ident(cat) && Ident(typ)
    ensures ExtractKeyToken(AttributeBody(name, cat, typ), "category=") == cat
  {
    var head := "id=" + Quoted(name) + " ";
    var tail := cat + (" type=" + typ);
    var body := AttributeBody(name, cat, typ);
    assert body == head + "category=" + tail;
    IdentForeign(name, '=');
    forall i ensures !OccursAt(head, "category=", i) {
      NoOccurrence(head, "category=", i, if i < 0 then 0 else 8);
    }
    FirstOccurrence(head, "category=", tail);
    assert body[|head| + 9..] == tail;
    UpToBlankStops(cat, " type=" + typ);
    IdentTight(cat);
  }

  lemma AttributeSplits(name: string, cat: string, typ: string)
    requires Ident(name) && Ident(cat) && Ident(typ)
    ensures var rest, body := AttributeText(name, cat, typ), AttributeBody(name, cat, typ);
            && Index(rest, "{") == |name| && rest[..|name|] == name && rest[|name| + 1..] == body + "}"
            && Tight(rest) && Tight(body) && Tight(body + "}")
  {
    var rest, body := AttributeText(name, cat, typ), AttributeBody(name, cat, typ);
    IdentTight(name);
    IdentTight(typ);
    IdentForeign(name, '{');
    assert rest == name + "{" + (body + "}");
    FirstForeign(name, "{", body + "}");
    assert body[|body| - 1] == typ[|typ| - 1];
  }

  lemma ClosedBody(body: string)
    requires Tight(body)
    ensures TrimSpace(TrimSuffix(TrimSpace(body + "}"), "}")) == body
  {
    TightTrim(body + "}");
    IsSuffix(body, "}");
    TightTrim(body);
  }

  lemma AttributeTrimmed(rest: string, name: string, body: string)
    requires Tight(rest) && Tight(name) && Tight(body) && |name| < |rest|
    requires rest[..|name|] == name && rest[|name| + 1..] == body + "}"
    ensures TrimSpace(TrimPrefix("attribute " + rest, "attribute ")) == rest && TrimSpace(rest[..|name|]) == name
    ensures TrimSpace(TrimSuffix(TrimSpace(rest[|name| + 1..]), "}")) == body
  {
    IsPrefix("attribute ", rest);
    TightTrim(rest);
    TightTrim(name);
    ClosedBody(body);
  }

  lemma AttributeFrom(line: string, rest: string, n: nat, name: string, body: string, cat: string)
    requires TrimSpace(TrimPrefix(line, "attribute ")) == rest && Index(rest, "{") == n
    requires TrimSpace(rest[..n]) == name && TrimSpace(TrimSuffix(TrimSpace(rest[n + 1..]), "}")) == body
    requires ExtractKeyToken(body, "category=") == cat && name != "" && cat != ""
    ensures ParseAttribute(line) == Some(Pair(name, cat))
  {
  }

  lemma AttributeReads(rest: string, name: string, body: string, cat: string)
    requires Tight(rest) && Tight(name) && Tight(body) && Index(rest, "{") == |name| < |rest|
    requires rest[..|name|] == name && rest[|name| + 1..] == body + "}"
    requires ExtractKeyToken(body, "category=") == cat && cat != ""
    ensures ParseAttribute("attribute " + rest) == Some(Pair(name, cat))
  {
    AttributeTrimmed(rest, name, body);
    AttributeFrom("attribute " + rest, rest, |name|, name, body, cat);
  }

  lemma AttributeParses(name: string, cat: string, typ: string)
    requires Ident(name) && Ident(cat) && Ident(typ)
    ensures ParseAttribute("attribute " + AttributeText(name, cat, typ)) == Some(Pair(name, cat))
  {
    AttributeSplits(name, cat, typ);
    IdentTight(name);
    CategoryFound(name, cat, typ);
    AttributeReads(AttributeText(name, cat, typ), name, AttributeBody(name, cat, typ), cat);
  }

  // -------------------------------------------------------- named conditions

  lemma {:induction false} TakeFieldStops(a: string, b: string)
    requires (forall i | 0 <= i < |a| :: a[i] !in SPACES) && b != "" && b[0] in SPACES
    ensures TakeField(a + b) == a
  {
    if a == "" {
      assert a + b == b;
    } else {
      assert (a + b)[1..] == a[1..] + b;
      TakeFieldStops(a[1..], b);
    }
  }

  lemma NamedConditionParses(name: string, expr: string)
    requires Ident(name) && Tight(expr)
    ensures ParseNamedCondition("condition " + name + " " + expr) == Some(Pair(name, expr))
  {
    var rest := name + (" " + expr);
    assert "condition " + name + " " + expr == "condition " + rest;
    IsPrefix("condition ", rest);
    IdentTight(name);
    assert rest[|rest| - 1] == expr[|expr| - 1];
    TightTrim(rest);
    assert TrimLeft(rest, SPACES) == rest;
    TakeFieldStops(name, " " + expr);
    assert Field(rest) == name;
    assert rest[|name|..] == " " + expr;
    LeadingBlank(expr);
    assert (" " + expr)[1..] == expr;
    assert TrimLeft(" " + expr, SPACES) == expr;
    assert TakeField(expr) == [expr[0]] + TakeField(expr[1..]);
  }

  // ----------------------------------------------------------------- targets

  function ActionText(name: string, args: seq<string>): string {
    if args == [] then name else name + "(" + Join(args, ",") + ")"
  }

  function TargetText(name: string, args: seq<string>): string {
    "Action==" + Quoted(ActionText(name, args))
  }

  predicate Idents(args: seq<string>) {
    forall i | 0 <= i < |args| :: Ident(args[i])
  }

  lemma {:induction false} JoinForeign(args: seq<string>, c: char)
    requires Idents(args) && !IdentChar(c) && c != ','
    ensures c !in Join(args, ",")
  {
    if |args| > 0 {
      IdentForeign(args[0], c);
    }
    if |args| > 1 {
      JoinForeign(args[1..], c);
    }
  }

  lemma {:induction false} TrimmedIdents(args: seq<string>)
    requires Idents(args)
    ensures NonEmptyTrimmed(args) == args
  {
    if args != [] {
      IdentTight(args[0]);
      TrimmedIdents(args[1..]);
    }
  }

  lemma ActionFrom(target: string, raw: string, n: nat, name: string, inner: string, args: seq<string>)
    requires Contains(target, "Action==") && ExtractQuotedValue(target) == raw && Index(raw, "(") == n
    requires n < |raw| - 1 && raw[|raw| - 1] == ')' && TrimSpace(raw[..n]) == name && raw[n + 1..|raw| - 1] == inner
    requires NonEmptyTrimmed(Split(inner, ",")) == args
    ensures ParseAction(target) == Some(Action(name, args))
  {
  }

  lemma ArgumentsRead(name: string, args: seq<string>)
    requires Ident(name) && Idents(args) && args != []
    ensures var raw, inner := ActionText(name, args), Join(args, ",");
            && Index(raw, "(") == |name| && |name| < |raw| - 1 && raw[|raw| - 1] == ')'
            && raw[..|name|] == name && raw[|name| + 1..|raw| - 1] == inner
            && NonEmptyTrimmed(Split(inner, ",")) == args
  {
    var raw, inner := ActionText(name, args), Join(args, ",");
    IdentForeign(name, '(');
    assert raw == name + "(" + (inner + ")");
    FirstForeign(name, "(", inner + ")");
    forall i | 0 <= i < |args| ensures ',' !in args[i] {
      IdentForeign(args[i], ',');
    }
    SplitJoin(args, ",");
    TrimmedIdents(args);
  }

  lemma ActionParses(name: string, args: seq<string>)
    requires Ident(name) && Idents(args)
    ensures ParseAction(TargetText(name, args)) == Some(Action(name, args))
  {
    var raw, target := ActionText(name, args), TargetText(name, args);
    JoinForeign(args, '"');
    IdentForeign(name, '"');
    IdentTight(name);
    assert target == "Action==" + Quoted(raw) + "";
    QuotedValue("Action==", raw, "");
    IsPrefix("Action==", Quoted(raw));
    assert OccursAt(target, "Action==", 0);
    if args == [] {
      IdentForeign(name, '(');
      ForeignFirst(raw, "(");
    } else {
      ArgumentsRead(name, args);
      ActionFrom(target, raw, |name|, name, Join(args, ","), args);
    }
  }

  lemma TargetTight(name: string, args: seq<string>)
    ensures Tight(TargetText(name, args))
  {
  }

  // ---------------------------------------------------------------- keywords

  /** The keywords differ in their first two letters. */
  lemma OtherKeyword(line: string, keyword: string)
    requires |line| >= 2 && |keyword| >= 2 && (line[0] != keyword[0] || line[1] != keyword[1])
    ensures !HasPrefix(line, keyword)
  {
    if line[0] != keyword[0] {
      NoOccurrence(line, keyword, 0, 0);
    } else {
      NoOccurrence(line, keyword, 0, 1);
    }
  }

  /** A line of a parameter is taken for the start of a policy exactly when the
      parameter is called `policy`. */
  lemma PolicyParameter(key: string, value: string)
    requires Ident(key)
    ensures HasPrefix(AssignmentText(key, value), "policy ") <==> key == "policy"
  {
    var s := AssignmentText(key, value);
    IdentForeign(key, ' ');
    if key == "policy" {
      assert s == "policy " + ("= " + Quoted(value));
      IsPrefix("policy ", "= " + Quoted(value));
    } else if |key| > 6 {
      assert s[6] == key[6];
      NoOccurrence(s, "policy ", 0, 6);
    } else if |key| < 6 {
      assert s[|key|] == ' ';
      NoOccurrence(s, "policy ", 0, |key|);
    } else {
      var k :| 0 <= k < 6 && key[k] != "policy"[k];
      assert s[k] == key[k] && "policy "[k] == "policy"[k];
      NoOccurrence(s, "policy ", 0, k);
    }
  }
}
