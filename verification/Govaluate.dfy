/** The expression evaluator on access conditions: it cuts the text into tokens and
    reads them with `&&` binding tighter than `||`. */
module Govaluate {
  import opened Wrappers
  import opened GoStrings
  import opened Identifiers
  import opened Condition
  import opened Respelling
  import opened Rewriting

  // ------------------------------------------------------------------ tokens

  datatype Lexeme = Lexeme(tok: Tok, length: nat)

  function NumberRun(s: string): (r: string)
    ensures r <= s
  {
    if s == "" || !NumberChar(s[0]) then "" else [s[0]] + NumberRun(s[1..])
  }

  function Symbol(s: string): Option<Lexeme> {
    if HasPrefix(s, "==") then Some(Lexeme(Comp(Eq), 2))
    else if HasPrefix(s, "!=") then Some(Lexeme(Comp(Ne), 2))
    else if HasPrefix(s, "<=") then Some(Lexeme(Comp(Le), 2))
    else if HasPrefix(s, ">=") then Some(Lexeme(Comp(Ge), 2))
    else if HasPrefix(s, "&&") then Some(Lexeme(AndTok, 2))
    else if HasPrefix(s, "||") then Some(Lexeme(OrTok, 2))
    else if HasPrefix(s, "<") then Some(Lexeme(Comp(Lt), 1))
    else if HasPrefix(s, ">") then Some(Lexeme(Comp(Gt), 1))
    else if HasPrefix(s, "(") then Some(Lexeme(Open, 1))
    else if HasPrefix(s, ")") then Some(Lexeme(Close, 1))
    else None
  }

  /** The token at the start of a text that starts with no blank. */
  function Scan(s: string): Option<Lexeme>
    requires s != ""
  {
    if NumberChar(s[0]) then Some(Lexeme(Value(Number(NumberRun(s))), |NumberRun(s)|))
    else if IdentChar(s[0]) then
      if Reserved(Head(s)) then None else Some(Lexeme(Name(Head(s)), |Head(s)|))
    else if s[0] == '"' then
      var end := Index(s[1..], "\"");
      if end < 0 then None else Some(Lexeme(Value(Quoted(s[1..1 + end])), end + 2))
    else Symbol(s)
  }

  function Lex(s: string): Option<seq<Tok>>
    decreases |s|
  {
    if s == "" then Some([])
    else if s[0] in SPACES then Lex(s[1..])
    else
      match Scan(s)
      case None => None
      case Some(x) =>
        if x.length == 0 || x.length > |s| then None
        else
          match Lex(s[x.length..])
          case None => None
          case Some(rest) => Some([x.tok] + rest)
  }

  // ------------------------------------------------------------------ parser

  datatype Parsed<A> = Parsed(value: A, rest: seq<Tok>)

  function ParsePrim(toks: seq<Tok>): (r: Option<Parsed<Prim>>)
    ensures r.Some? ==> |r.value.rest| < |toks|
    decreases |toks|, 0
  {
    if |toks| >= 1 && toks[0].Open? then
      match ParseCond(toks[1..])
      case None => None
      case Some(p) =>
        if p.rest != [] && p.rest[0].Close? then Some(Parsed(Nested(p.value), p.rest[1..])) else None
    else if |toks| >= 3 && toks[0].Name? && toks[1].Comp? && toks[2].Value? then
      Some(Parsed(Test(toks[0].name, toks[1].cmp, toks[2].lit), toks[3..]))
    else None
  }

  function ParseConj(toks: seq<Tok>): (r: Option<Parsed<Conj>>)
    ensures r.Some? ==> |r.value.rest| < |toks|
    decreases |toks|, 1
  {
    match ParsePrim(toks)
    case None => None
    case Some(p) =>
      if p.rest != [] && p.rest[0].AndTok? then
        match ParseConj(p.rest[1..])
        case None => None
        case Some(c) => Some(Parsed(And(p.value, c.value), c.rest))
      else Some(Parsed(Single(p.value), p.rest))
  }

  function ParseCond(toks: seq<Tok>): (r: Option<Parsed<Cond>>)
    ensures r.Some? ==> |r.value.rest| < |toks|
    decreases |toks|, 2
  {
    match ParseConj(toks)
    case None => None
    case Some(p) =>
      if p.rest != [] && p.rest[0].OrTok? then
        match ParseCond(p.rest[1..])
        case None => None
        case Some(c) => Some(Parsed(Or(p.value, c.value), c.rest))
      else Some(Parsed(Only(p.value), p.rest))
  }

  /** The whole text as a condition. */
  function Read(s: string): Option<Cond> {
    match Lex(s)
    case None => None
    case Some(toks) =>
      match ParseCond(toks)
      case None => None
      case Some(p) => if p.rest == [] then Some(p.value) else None
  }

  // ---------------------------------------------------- parsing inverts tokens

  predicate EndsConj(rest: seq<Tok>) {
    rest == [] || !rest[0].AndTok?
  }

  predicate EndsCond(rest: seq<Tok>) {
    rest == [] || (!rest[0].AndTok? && !rest[0].OrTok?)
  }

  lemma {:induction false} PrimParses(p: Prim, rest: seq<Tok>)
    ensures ParsePrim(PrimToks(p) + rest) == Some(Parsed(p, rest))
    decreases p, 0
  {
    var s := PrimToks(p) + rest;
    match p
    case Test(_, _, _) =>
      assert s[3..] == rest;
    case Nested(c) =>
      assert s[1..] == CondToks(c) + ([Close] + rest);
      CondParses(c, [Close] + rest);
      assert ([Close] + rest)[1..] == rest;
  }

  lemma {:induction false} ConjParses(c: Conj, rest: seq<Tok>)
    requires EndsConj(rest)
    ensures ParseConj(ConjToks(c) + rest) == Some(Parsed(c, rest))
    decreases c, 1
  {
    match c
    case Single(p) => PrimParses(p, rest);
    case And(p, more) =>
      var tail := [AndTok] + (ConjToks(more) + rest);
      PrimParses(p, tail);
      assert ConjToks(c) + rest == PrimToks(p) + tail;
      assert tail[1..] == ConjToks(more) + rest;
      ConjParses(more, rest);
  }

  lemma {:induction false} CondParses(c: Cond, rest: seq<Tok>)
    requires EndsCond(rest)
    ensures ParseCond(CondToks(c) + rest) == Some(Parsed(c, rest))
    decreases c, 2
  {
    match c
    case Only(j) => ConjParses(j, rest);
    case Or(j, more) =>
      var tail := [OrTok] + (CondToks(more) + rest);
      ConjParses(j, tail);
      assert CondToks(c) + rest == ConjToks(j) + tail;
      assert tail[1..] == CondToks(more) + rest;
      CondParses(more, rest);
  }

  // ---------------------------------------------------- lexing inverts spelling

  /** The text after a token does not continue it. */
  predicate Breaks(t: Tok, b: string) {
    match t
    case Name(_) => b == "" || !IdentChar(b[0])
    case Value(l) => l.Quoted? || b == "" || !NumberChar(b[0])
    case Comp(_) => b == "" || b[0] != '='
    case _ => true
  }

  lemma {:induction false} NumberRunIs(d: string, b: string)
    requires (forall i | 0 <= i < |d| :: NumberChar(d[i])) && (b == "" || !NumberChar(b[0]))
    ensures NumberRun(d + b) == d
  {
    if d == "" {
      assert d + b == b;
    } else {
      assert (d + b)[1..] == d[1..] + b;
      NumberRunIs(d[1..], b);
    }
  }

  lemma ScanSymbol(t: Tok, b: string)
    requires t.Comp? || t.AndTok? || t.OrTok? || t.Open? || t.Close?
    requires Breaks(t, b)
    ensures var w := Word(GOVALUATE, t); Symbol(w + b) == Some(Lexeme(t, |w|)) && w != ""
    ensures var c := Word(GOVALUATE, t)[0]; !NumberChar(c) && !IdentChar(c) && c != '"' && c !in SPACES
  {
    var w := Word(GOVALUATE, t);
    var s := w + b;
    assert s[0] == w[0];
    assert |w| == 2 ==> s[0..2] == w;
    assert s[0..1] == [w[0]];
    assert |s| >= 2 ==> s[0..2] == [s[0], s[1]];
  }

  lemma ScanWord(t: Tok, b: string)
    requires TokWf(t) && Breaks(t, b)
    ensures var w := Word(GOVALUATE, t); w != "" && w[0] !in SPACES && Scan(w + b) == Some(Lexeme(t, |w|))
  {
    var w := Word(GOVALUATE, t);
    var s := w + b;
    match t
    case Name(n) => HeadIs(n, b);
    case Value(l) =>
      if l.Quoted? {
        assert s[1..] == l.text + "\"" + b;
        FirstForeign(l.text, "\"", b);
        assert s[1..1 + |l.text|] == l.text;
      } else {
        NumberRunIs(l.digits, b);
      }
    case _ => ScanSymbol(t, b);
  }

  lemma LexOne(t: Tok, b: string, rest: seq<Tok>)
    requires TokWf(t) && Breaks(t, b) && Lex(b) == Some(rest)
    ensures Lex(Word(GOVALUATE, t) + b) == Some([t] + rest)
  {
    ScanWord(t, b);
    assert (Word(GOVALUATE, t) + b)[|Word(GOVALUATE, t)|..] == b;
  }

  lemma LexBlank(b: string)
    ensures Lex(" " + b) == Lex(b)
  {
    assert (" " + b)[1..] == b;
  }

  lemma FollowBreaks(t: Tok, u: Tok, sep: string, b: string)
    requires TokWf(u) && Follows(t, u) && Word(GOVALUATE, u) <= b
    requires sep == " " || (sep == "" && !Joint(u))
    ensures Breaks(t, sep + b)
  {
    var w := Word(GOVALUATE, u);
    assert w != "" && b[0] == w[0];
    assert sep == "" ==> sep + b == b;
  }

  lemma {:induction false} SpellLexes(toks: seq<Tok>, gaps: seq<nat>)
    requires Linked(toks) && GapsWf(toks, gaps)
    ensures Lex(Spell(GOVALUATE, toks, gaps)) == Some(toks)
    decreases |toks|
  {
    if |toks| == 1 {
      var w := Word(GOVALUATE, toks[0]);
      LexOne(toks[0], "", []);
      assert w + "" == w;
      assert [toks[0]] + [] == toks;
    } else {
      LinkedTail(toks);
      GapsTail(toks, gaps);
      SpellLexes(toks[1..], gaps[1..]);
      assert GapWf(toks, gaps, 0);
      var b := Spell(GOVALUATE, toks[1..], gaps[1..]);
      var sep := Sep(Narrow, toks[0], toks[1], gaps[0]);
      SpellStart(GOVALUATE, toks[1..], gaps[1..]);
      FollowBreaks(toks[0], toks[1], sep, b);
      if sep == " " {
        LexBlank(b);
      } else {
        assert sep + b == b;
      }
      LexOne(toks[0], sep + b, toks[1..]);
      SpellStep(GOVALUATE, toks, gaps);
      assert [toks[0]] + toks[1..] == toks;
    }
  }

  /** Reading the final spelling of a condition gives the condition. */
  lemma SpellReads(c: Cond, gaps: seq<nat>)
    requires CondWf(c) && GapsWf(CondToks(c), gaps)
    ensures Read(Spell(GOVALUATE, CondToks(c), gaps)) == Some(c)
  {
    CondWhole(c);
    SpellLexes(CondToks(c), gaps);
    CondParses(c, []);
    assert CondToks(c) + [] == CondToks(c);
  }
}
