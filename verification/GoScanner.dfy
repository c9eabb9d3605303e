/** How Go itself matches the brace of a function body, stepping over comments and rune
    literals as well, and for which texts the splicer finds the same brace. */
module GoScanner {
  import opened Wrappers
  import opened Splice

  datatype Mode = Plain | Text | Raw | Rune | Line | Block

  /** Where Go's lexer is: the depth of braces, what it is inside of, and whether the
      next character of a text or rune is escaped. */
  datatype Lexer = Lexer(depth: int, mode: Mode, escape: bool)

  /** In code, the characters at the front of `s` start a comment. */
  predicate StartsComment(s: string) {
    |s| > 1 && s[0] == '/' && (s[1] == '/' || s[1] == '*')
  }

  /** One character outside of comments. */
  function Read(g: Lexer, ch: char): Lexer {
    match g.mode
    case Plain =>
      if ch == '`' then g.(mode := Raw)
      else if ch == '"' then g.(mode := Text)
      else if ch == '\'' then g.(mode := Rune)
      else if ch == '{' then g.(depth := g.depth + 1)
      else if ch == '}' then g.(depth := g.depth - 1)
      else g
    case Text => if ch == '"' && !g.escape then g.(mode := Plain) else g.(escape := ch == '\\' && !g.escape)
    case Rune => if ch == '\'' && !g.escape then g.(mode := Plain) else g.(escape := ch == '\\' && !g.escape)
    case Raw => if ch == '`' then g.(mode := Plain) else g
    case Line => if ch == '\n' then g.(mode := Plain) else g
    case Block => g
  }

  /** How many characters up to and including the brace that Go matches. */
  function GoExtent(g: Lexer, s: string): (n: Option<nat>)
    decreases |s|
  {
    if s == "" then None
    else if g.mode == Plain && s[0] == '}' && g.depth == 1 then Some(1)
    else if g.mode == Plain && StartsComment(s) then
      Plus(GoExtent(g.(mode := if s[1] == '/' then Line else Block), s[2..]), 2)
    else if g.mode == Block && |s| > 1 && s[0] == '*' && s[1] == '/' then
      Plus(GoExtent(g.(mode := Plain), s[2..]), 2)
    else
      Plus(GoExtent(Read(g, s[0]), s[1..]), 1)
  }

  // ------------------------------------------------- comments and runes

  /** A comment or a rune literal starts here. */
  predicate StartsForeign(s: string) {
    s != "" && (s[0] == '\'' || StartsComment(s))
  }

  /** How many characters to the end of a line comment, its line break included. */
  function LineEnd(s: string): (n: Option<nat>)
    ensures n.Some? ==> 0 < n.value <= |s|
  {
    if s == "" then None else if s[0] == '\n' then Some(1) else Plus(LineEnd(s[1..]), 1)
  }

  function BlockEnd(s: string): (n: Option<nat>)
    ensures n.Some? ==> 0 < n.value <= |s|
  {
    if |s| < 2 then None else if s[0] == '*' && s[1] == '/' then Some(2) else Plus(BlockEnd(s[1..]), 1)
  }

  function RuneEnd(s: string, escape: bool): (n: Option<nat>)
    ensures n.Some? ==> 0 < n.value <= |s|
    decreases |s|
  {
    if s == "" then None
    else if s[0] == '\'' && !escape then Some(1)
    else Plus(RuneEnd(s[1..], s[0] == '\\' && !escape), 1)
  }

  /** The length of the comment or rune literal at the front. */
  function ForeignLength(s: string): (n: Option<nat>)
    requires StartsForeign(s)
    ensures n.Some? ==> 0 < n.value <= |s|
  {
    if s[0] == '\'' then Plus(RuneEnd(s[1..], false), 1)
    else if s[1] == '/' then Plus(LineEnd(s[2..]), 2)
    else Plus(BlockEnd(s[2..]), 2)
  }

  /** The text is one comment or one rune literal. */
  predicate IsForeign(s: string) {
    StartsForeign(s) && ForeignLength(s) == Some(|s|)
  }

  /** The brace behind the first `n` characters, which are no code. */
  function Behind(n: Option<nat>, d: int, s: string): Option<nat>
    requires n.Some? ==> n.value <= |s|
  {
    if n.None? then None else Plus(GoExtent(Lexer(d, Plain, false), s[n.value..]), n.value)
  }

  lemma {:induction false} LineSkipped(d: int, s: string)
    ensures GoExtent(Lexer(d, Line, false), s) == Behind(LineEnd(s), d, s)
    decreases |s|
  {
    if s != "" && s[0] != '\n' {
      LineSkipped(d, s[1..]);
      Further(LineEnd(s[1..]), d, s);
    }
  }

  lemma {:induction false} BlockSkipped(d: int, s: string)
    ensures GoExtent(Lexer(d, Block, false), s) == Behind(BlockEnd(s), d, s)
    decreases |s|
  {
    if |s| == 1 {
      assert s[1..] == "";
    } else if s != "" && !(s[0] == '*' && s[1] == '/') {
      BlockSkipped(d, s[1..]);
      Further(BlockEnd(s[1..]), d, s);
    }
  }

  lemma {:induction false} RuneSkipped(d: int, s: string, escape: bool)
    ensures GoExtent(Lexer(d, Rune, escape), s) == Behind(RuneEnd(s, escape), d, s)
    decreases |s|
  {
    if s != "" && !(s[0] == '\'' && !escape) {
      RuneSkipped(d, s[1..], s[0] == '\\' && !escape);
      Further(RuneEnd(s[1..], s[0] == '\\' && !escape), d, s);
    }
  }

  lemma Further(n: Option<nat>, d: int, s: string)
    requires s != "" && (n.Some? ==> n.value < |s|)
    ensures Plus(Behind(n, d, s[1..]), 1) == Behind(Plus(n, 1), d, s)
  {
    if n.Some? {
      assert s[1..][n.value..] == s[n.value + 1..];
    }
  }

  /** Go goes on in code behind a comment or a rune literal, at the same depth. */
  lemma ForeignSkipped(d: int, s: string)
    requires StartsForeign(s)
    ensures GoExtent(Lexer(d, Plain, false), s) == Behind(ForeignLength(s), d, s)
  {
    if s[0] == '\'' {
      RuneSkipped(d, s[1..], false);
      Further(RuneEnd(s[1..], false), d, s);
    } else if s[1] == '/' {
      LineSkipped(d, s[2..]);
      FurtherTwo(LineEnd(s[2..]), d, s);
    } else {
      BlockSkipped(d, s[2..]);
      FurtherTwo(BlockEnd(s[2..]), d, s);
    }
  }

  lemma FurtherTwo(n: Option<nat>, d: int, s: string)
    requires |s| > 1 && (n.Some? ==> n.value + 1 < |s|)
    ensures Plus(Behind(n, d, s[2..]), 2) == Behind(Plus(n, 2), d, s)
  {
    if n.Some? {
      assert s[2..][n.value..] == s[n.value + 2..];
    }
  }

  // ---------------------------------------------------------- when they agree

  /** The splicer's variables, as Go's lexer would have them. */
  function AsLexer(c: Scanner): Lexer {
    Lexer(c.depth, if c.inString then Text else if c.inRaw then Raw else Plain, c.escape)
  }

  predicate Consistent(c: Scanner) {
    (c.inString ==> !c.inRaw) && (c.escape ==> c.inString)
  }

  predicate InCode(c: Scanner) {
    !c.inString && !c.inRaw
  }

  /** Up to the matched brace, the splicer reads every comment and every rune literal
      without closing in it, and comes out of it as it went in. */
  predicate Harmless(c: Scanner, s: string)
    decreases |s|
  {
    if s == "" || Closes(c, s[0]) then true
    else if InCode(c) && StartsForeign(s) then
      var n := ForeignLength(s);
      n.Some? && Leads(c, s[..n.value], c) && Harmless(c, s[n.value..])
    else Harmless(Advance(c, s[0]), s[1..])
  }

  lemma ReadAgrees(c: Scanner, ch: char)
    requires Consistent(c) && (c.inString || c.inRaw || ch != '\'')
    ensures Consistent(Advance(c, ch)) && AsLexer(Advance(c, ch)) == Read(AsLexer(c), ch)
  {
  }

  lemma HarmlessStep(c: Scanner, s: string)
    requires Consistent(c) && InCode(c) && StartsForeign(s) && ForeignLength(s).Some?
    requires Leads(c, s[..ForeignLength(s).value], c)
    requires GoExtent(AsLexer(c), s[ForeignLength(s).value..]) == Extent(c, s[ForeignLength(s).value..])
    ensures GoExtent(AsLexer(c), s) == Extent(c, s)
  {
    var n := ForeignLength(s).value;
    ForeignSkipped(c.depth, s);
    ExtentAfter(c, s[..n], s[n..]);
    assert s == s[..n] + s[n..];
  }

  lemma CodeStep(c: Scanner, s: string)
    requires Consistent(c) && s != "" && !Closes(c, s[0]) && !(InCode(c) && StartsForeign(s))
    requires GoExtent(AsLexer(Advance(c, s[0])), s[1..]) == Extent(Advance(c, s[0]), s[1..])
    ensures Consistent(Advance(c, s[0])) && GoExtent(AsLexer(c), s) == Extent(c, s)
  {
    ReadAgrees(c, s[0]);
  }

  /** The splicer finds the brace that Go matches, in every text in which all comments
      and rune literals before it are harmless, however many there are. */
  lemma {:induction false} SplicerAgrees(c: Scanner, s: string)
    requires Consistent(c) && Harmless(c, s)
    ensures GoExtent(AsLexer(c), s) == Extent(c, s)
    decreases |s|
  {
    if s != "" && !Closes(c, s[0]) {
      if InCode(c) && StartsForeign(s) {
        SplicerAgrees(c, s[ForeignLength(s).value..]);
        HarmlessStep(c, s);
      } else {
        ReadAgrees(c, s[0]);
        SplicerAgrees(Advance(c, s[0]), s[1..]);
        CodeStep(c, s);
      }
    }
  }

  // ---------------------------------------------------- generated handlers

  /** No character that a comment or a rune literal could start with. */
  predicate Calm(s: string) {
    forall i | 0 <= i < |s| :: s[i] != '/' && s[i] != '\''
  }

  lemma {:induction false} CalmHarmless(c: Scanner, s: string)
    requires Calm(s)
    ensures Harmless(c, s)
    decreases |s|
  {
    if s != "" {
      assert s[0] != '/' && s[0] != '\'';
      CalmHarmless(Advance(c, s[0]), s[1..]);
    }
  }

  lemma {:induction false} CasesCalm(keys: seq<string>)
    requires forall i | 0 <= i < |keys| :: Calm(keys[i])
    ensures Calm(CasesText(keys))
  {
    if keys != [] {
      CaseCalm(keys[0]);
      CasesCalm(keys[1..]);
    }
  }

  lemma CaseCalm(key: string)
    requires Calm(key)
    ensures Calm(CaseText(key))
  {
    assert Calm("\n\tcase ") && Calm("\"") && Calm(":\n\t\treturn ") && Calm("Handler") && Calm("(payload)");
  }

  lemma DefaultCalm()
    ensures Calm(DEFAULT_CASE) && Calm(OPEN_SWITCH)
  {
    assert Calm("\n\tdefault:\n\t\treturn ") && Calm("\"Unknown function: \"") && Calm(" + functionName\n\t");
    assert Calm("\n\tswitch ") && Calm("functionName ") && Calm("}") && Calm("\n");
  }

  lemma BodyCalm(keys: seq<string>)
    requires forall i | 0 <= i < |keys| :: Calm(keys[i])
    ensures Calm(BodyText(keys))
  {
    CasesCalm(keys);
    DefaultCalm();
  }

  /** Every generated body is matched by Go at its last character as well. */
  lemma GeneratedMatchesGo(keys: seq<string>)
    requires forall i | 0 <= i < |keys| :: Name(keys[i]) && Calm(keys[i])
    ensures GoExtent(Lexer(0, Plain, false), BodyText(keys)) == Some(|BodyText(keys)|)
  {
    DefaultCloses();
    OpenLeads();
    BodyExtent(keys, DEFAULT_CASE, OPEN_SWITCH);
    BodyCalm(keys);
    CalmHarmless(Code(0), BodyText(keys));
    SplicerAgrees(Code(0), BodyText(keys));
  }
}
