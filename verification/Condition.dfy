/** Access conditions: comparisons of attributes joined by `and`, `or` and
    parentheses; their tokens; the ways they are written; what they mean. */
module Condition {
  import opened Wrappers
  import opened GoStrings
  import opened Identifiers
  import opened Ordering
  import GoExpr

  datatype Comparison = Eq | Ne | Lt | Le | Gt | Ge

  datatype Literal = Quoted(text: string) | Number(digits: string)

  datatype Prim = Test(name: string, cmp: Comparison, lit: Literal) | Nested(cond: Cond)
  datatype Conj = Single(prim: Prim) | And(prim: Prim, rest: Conj)
  datatype Cond = Only(conj: Conj) | Or(conj: Conj, rest: Cond)

  // ---------------------------------------------------------------- meaning

  datatype Attribute = Text(text: string) | Int(int) | Bool(bool)

  type Attributes = map<string, Attribute>

  function CompareReals(a: real, cmp: Comparison, b: real): bool {
    match cmp
    case Eq => a == b
    case Ne => a != b
    case Lt => a < b
    case Le => a <= b
    case Gt => a > b
    case Ge => a >= b
  }

  function CompareTexts(a: string, cmp: Comparison, b: string): bool {
    match cmp
    case Eq => a == b
    case Ne => a != b
    case Lt => Below(a, b)
    case Le => a == b || Below(a, b)
    case Gt => Below(b, a)
    case Ge => a == b || Below(b, a)
  }

  /** The value of digits with at most one point. */
  function NumberValue(d: string): Option<real> {
    var dot := Index(d, ".");
    var whole, frac := if dot < 0 then d else d[..dot], if dot < 0 then "" else d[dot + 1..];
    if whole + frac == "" || !GoExpr.IsDigits(whole) || !GoExpr.IsDigits(frac) then None
    else Some(GoExpr.DigitsValue(whole) as real + GoExpr.DigitsValue(frac) as real / GoExpr.Pow10(|frac|) as real)
  }

  /** None: the evaluator reports an error. */
  function Compare(a: Attribute, cmp: Comparison, lit: Literal): Option<bool> {
    match lit
    case Quoted(text) =>
      if a.Text? then Some(CompareTexts(a.text, cmp, text))
      else if cmp == Eq || cmp == Ne then Some(cmp == Ne)
      else None
    case Number(digits) =>
      match NumberValue(digits)
      case None => None
      case Some(n) =>
        match a
        case Int(i) => Some(CompareReals(i as real, cmp, n))
        case _ => if cmp == Eq || cmp == Ne then Some(cmp == Ne) else None
  }

  function PrimHolds(p: Prim, env: Attributes): Option<bool> {
    match p
    case Test(name, cmp, lit) => if name in env then Compare(env[name], cmp, lit) else None
    case Nested(c) => CondHolds(c, env)
  }

  function ConjHolds(c: Conj, env: Attributes): Option<bool> {
    match c
    case Single(p) => PrimHolds(p, env)
    case And(p, rest) => if PrimHolds(p, env) == Some(true) then ConjHolds(rest, env) else PrimHolds(p, env)
  }

  function CondHolds(c: Cond, env: Attributes): Option<bool> {
    match c
    case Only(j) => ConjHolds(j, env)
    case Or(j, rest) => if ConjHolds(j, env) == Some(false) then CondHolds(rest, env) else ConjHolds(j, env)
  }

  // ------------------------------------------------------------ well-formed

  predicate NumberChar(c: char) {
    '0' <= c <= '9' || c == '.'
  }

  /** Literals avoid what the rewriting steps look for. */
  predicate LiteralWf(l: Literal) {
    match l
    case Quoted(t) =>
      && (forall i | 0 <= i < |t| :: t[i] !in "\"\\\n\r`")
      && !Contains(t, "==") && !Contains(t, "  ") && !Contains(t, " and ") && !Contains(t, " or ")
      && !SpacedEquals(t)
    case Number(d) => d != "" && forall i | 0 <= i < |d| :: NumberChar(d[i])
  }

  predicate EqualsAt(s: string, i: int) {
    0 <= i <= |s| - 3 && s[i] in SPACES && s[i + 1] == '=' && s[i + 2] in SPACES
  }

  predicate SpacedEquals(s: string) {
    exists i | 0 <= i < |s| :: EqualsAt(s, i)
  }

  /** The words that are not attribute names. */
  predicate Reserved(n: string) {
    n == "and" || n == "or" || n == "in" || n == "IN" || n == "true" || n == "false"
  }

  predicate NameWf(n: string) {
    Ident(n) && !('0' <= n[0] <= '9') && !Reserved(n)
  }

  predicate DigitAt(s: string, i: int) {
    0 <= i < |s| && '0' <= s[i] <= '9'
  }

  /** The evaluator tries quoted texts as dates: those have a colon behind a digit, or
      start with a year and a dash. */
  predicate DateLike(s: string) {
    || (exists i | 0 <= i < |s| - 1 :: DigitAt(s, i) && s[i + 1] == ':')
    || (|s| > 4 && s[4] == '-' && forall i | 0 <= i < 4 :: DigitAt(s, i))
  }

  /** The evaluator takes the literal as what it looks like: no date, and a number. */
  predicate PlainLiteral(l: Literal) {
    match l
    case Quoted(t) => !DateLike(t)
    case Number(d) => NumberValue(d).Some?
  }

  predicate PrimWf(p: Prim) {
    match p
    case Test(name, _, lit) => NameWf(name) && LiteralWf(lit) && PlainLiteral(lit)
    case Nested(c) => CondWf(c)
  }

  predicate ConjWf(c: Conj) {
    PrimWf(c.prim) && (c.And? ==> ConjWf(c.rest))
  }

  predicate CondWf(c: Cond) {
    ConjWf(c.conj) && (c.Or? ==> CondWf(c.rest))
  }

  // ----------------------------------------------------------------- tokens

  datatype Tok = Name(name: string) | Comp(cmp: Comparison) | Value(lit: Literal) | AndTok | OrTok | Open | Close

  function PrimToks(p: Prim): seq<Tok> {
    match p
    case Test(name, cmp, lit) => [Name(name), Comp(cmp), Value(lit)]
    case Nested(c) => [Open] + CondToks(c) + [Close]
  }

  function ConjToks(c: Conj): seq<Tok> {
    match c
    case Single(p) => PrimToks(p)
    case And(p, rest) => PrimToks(p) + ([AndTok] + ConjToks(rest))
  }

  function CondToks(c: Cond): seq<Tok> {
    match c
    case Only(j) => ConjToks(j)
    case Or(j, rest) => ConjToks(j) + ([OrTok] + CondToks(rest))
  }

  predicate TokWf(t: Tok) {
    match t
    case Name(n) => NameWf(n)
    case Value(l) => LiteralWf(l)
    case _ => true
  }

  /** `u` may come right after `t`. */
  predicate Follows(t: Tok, u: Tok) {
    match t
    case Name(_) => u.Comp?
    case Comp(_) => u.Value?
    case Value(_) => u.AndTok? || u.OrTok? || u.Close?
    case Close => u.AndTok? || u.OrTok? || u.Close?
    case _ => u.Name? || u.Open?
  }

  predicate Starts(t: Tok) {
    t.Name? || t.Open?
  }

  predicate Ends(t: Tok) {
    t.Value? || t.Close?
  }

  /** The tail of the tokens of a condition. */
  predicate Linked(toks: seq<Tok>) {
    && toks != []
    && (forall i | 0 <= i < |toks| :: TokWf(toks[i]))
    && (forall i | 0 <= i < |toks| - 1 :: Follows(toks[i], toks[i + 1]))
    && Ends(toks[|toks| - 1])
  }

  lemma LinkedTail(toks: seq<Tok>)
    requires Linked(toks) && |toks| > 1
    ensures Linked(toks[1..]) && Follows(toks[0], toks[1]) && TokWf(toks[0])
  {
    var rest := toks[1..];
    assert rest[|rest| - 1] == toks[|toks| - 1];
    forall i | 0 <= i < |rest| ensures TokWf(rest[i]) {
      assert rest[i] == toks[i + 1];
    }
    forall i | 0 <= i < |rest| - 1 ensures Follows(rest[i], rest[i + 1]) {
      assert Follows(toks[i + 1], toks[i + 2]);
    }
  }

  predicate Whole(toks: seq<Tok>) {
    Linked(toks) && Starts(toks[0])
  }

  lemma WholeJoin(a: seq<Tok>, t: Tok, b: seq<Tok>)
    requires Whole(a) && Whole(b) && (t.AndTok? || t.OrTok?)
    ensures Whole(a + ([t] + b))
  {
    var s := a + ([t] + b);
    forall i | 0 <= i < |s| - 1 ensures Follows(s[i], s[i + 1]) {
      if i < |a| - 1 {
        assert Follows(a[i], a[i + 1]);
      } else if i > |a| {
        assert Follows(b[i - |a| - 1], b[i - |a|]);
      }
    }
  }

  lemma WholeNest(a: seq<Tok>)
    requires Whole(a)
    ensures Whole([Open] + a + [Close])
  {
    var s := [Open] + a + [Close];
    forall i | 0 <= i < |s| - 1 ensures Follows(s[i], s[i + 1]) {
      if 0 < i < |a| {
        assert Follows(a[i - 1], a[i]);
      }
    }
  }

  lemma {:induction false} PrimWhole(p: Prim)
    requires PrimWf(p)
    ensures Whole(PrimToks(p))
  {
    if p.Nested? {
      CondWhole(p.cond);
      WholeNest(CondToks(p.cond));
    }
  }

  lemma {:induction false} ConjWhole(c: Conj)
    requires ConjWf(c)
    ensures Whole(ConjToks(c))
  {
    PrimWhole(c.prim);
    if c.And? {
      ConjWhole(c.rest);
      WholeJoin(PrimToks(c.prim), AndTok, ConjToks(c.rest));
    }
  }

  lemma {:induction false} CondWhole(c: Cond)
    requires CondWf(c)
    ensures Whole(CondToks(c))
  {
    ConjWhole(c.conj);
    if c.Or? {
      CondWhole(c.rest);
      WholeJoin(ConjToks(c.conj), OrTok, CondToks(c.rest));
    }
  }

  // ---------------------------------------------------------------- spelling

  /** How blanks are set: as given, with extra ones around `=`, or one where any were. */
  datatype Layout = Given | Wide | Narrow

  datatype Style = Style(eq: string, and_: string, or_: string, layout: Layout)

  const ALFA := Style("==", "and", "or", Given)
  const SPREAD := Style("=", "and", "or", Wide)
  const FEEL := Style("=", "and", "or", Narrow)
  const EQUALS := Style("==", "and", "or", Narrow)
  const ANDS := Style("==", "&&", "or", Narrow)
  const GOVALUATE := Style("==", "&&", "||", Narrow)

  function Sp(n: nat): (s: string)
    ensures |s| == n && forall i | 0 <= i < n :: s[i] == ' '
  {
    seq(n, i => ' ')
  }

  function LiteralText(l: Literal): string {
    match l
    case Quoted(t) => "\"" + t + "\""
    case Number(d) => d
  }

  function Word(st: Style, t: Tok): string {
    match t
    case Name(n) => n
    case Comp(c) =>
      (match c case Eq => st.eq case Ne => "!=" case Lt => "<" case Le => "<=" case Gt => ">" case Ge => ">=")
    case Value(l) => LiteralText(l)
    case AndTok => st.and_
    case OrTok => st.or_
    case Open => "("
    case Close => ")"
  }

  function Wider(t: Tok, u: Tok): nat {
    if t == Comp(Eq) || u == Comp(Eq) then 1 else 0
  }

  function Sep(l: Layout, t: Tok, u: Tok, gap: nat): string {
    match l
    case Given => Sp(gap)
    case Wide => Sp(gap + Wider(t, u))
    case Narrow => if gap + Wider(t, u) > 0 then " " else ""
  }

  /** The tokens with `gaps[i]` blanks after the i-th one. */
  function Spell(st: Style, toks: seq<Tok>, gaps: seq<nat>): string
    requires |gaps| == |toks|
  {
    if |toks| == 0 then ""
    else if |toks| == 1 then Word(st, toks[0])
    else Word(st, toks[0]) + (Sep(st.layout, toks[0], toks[1], gaps[0]) + Spell(st, toks[1..], gaps[1..]))
  }

  predicate Joint(t: Tok) {
    t.AndTok? || t.OrTok?
  }

  predicate GapWf(toks: seq<Tok>, gaps: seq<nat>, i: nat)
    requires |gaps| == |toks| && i < |toks| - 1
  {
    Joint(toks[i]) || Joint(toks[i + 1]) ==> gaps[i] > 0
  }

  /** The words `and` and `or` have blanks around them. */
  predicate GapsWf(toks: seq<Tok>, gaps: seq<nat>) {
    |gaps| == |toks| && forall i | 0 <= i < |toks| - 1 :: GapWf(toks, gaps, i)
  }

  lemma GapsTail(toks: seq<Tok>, gaps: seq<nat>)
    requires GapsWf(toks, gaps) && |toks| > 0
    ensures GapsWf(toks[1..], gaps[1..])
  {
    forall i | 0 <= i < |toks[1..]| - 1 ensures GapWf(toks[1..], gaps[1..], i) {
      assert GapWf(toks, gaps, i + 1);
    }
  }
}
