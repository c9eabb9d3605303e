/** The part of Go that the generated decision functions are written in: the
    tokens of a condition, a parser with Go's operator precedence (`||` below
    `&&` below comparison, both left associative), and an evaluator in which a
    failing type assertion is a panic. */
module GoExpr {
  import opened Wrappers
  import opened GoStrings

  /** What an `inputs` map holds: the dynamic types the generated code asserts. */
  datatype Value = Str(s: string) | Num(r: real) | Bool(b: bool) | Instant(t: int)

  type Inputs = map<string, Value>

  datatype GoType = TString | TFloat64 | TBool | TTime

  predicate HasType(v: Value, typ: GoType) {
    match typ
    case TString => v.Str?
    case TFloat64 => v.Num?
    case TBool => v.Bool?
    case TTime => v.Instant?
  }

  /** The arguments of an emitted `time.Date(..., 0, time.UTC)`. */
  datatype Civil = Civil(year: int, month: int, day: int, hour: int, minute: int, second: int)

  predicate IsLeap(y: int) {
    y % 4 == 0 && (y % 100 != 0 || y % 400 == 0)
  }

  function DaysIn(y: int, m: int): int {
    if m == 2 then (if IsLeap(y) then 29 else 28)
    else if m in {4, 6, 9, 11} then 30
    else 31
  }

  function DaysBefore(y: int, m: int): int
    decreases m
  {
    if m <= 1 then 0 else DaysIn(y, m - 1) + DaysBefore(y, m - 1)
  }

  /** Seconds on the UTC time line. */
  function Seconds(c: Civil): int {
    var y := c.year - 1;
    var days := 365 * y + y / 4 - y / 100 + y / 400 + DaysBefore(c.year, c.month) + c.day - 1;
    ((days * 24 + c.hour) * 60 + c.minute) * 60 + c.second
  }

  // --------------------------------------------------------------- literals

  predicate IsDigits(s: string) {
    forall i | 0 <= i < |s| :: '0' <= s[i] <= '9'
  }

  function DigitsValue(s: string): nat
    requires IsDigits(s)
  {
    if s == "" then 0 else 10 * DigitsValue(s[..|s| - 1]) + (s[|s| - 1] - '0') as int
  }

  function Pow10(n: nat): (p: int)
    ensures p > 0
  {
    if n == 0 then 1 else 10 * Pow10(n - 1)
  }

  /** A decimal number: digits before the point, digits after it. A leading zero
      before other digits is not decimal in Go (it makes the literal octal). */
  predicate IsDecimal(whole: string, frac: string) {
    whole != "" && IsDigits(whole) && IsDigits(frac) && (|whole| > 1 ==> whole[0] != '0')
  }

  function DecimalValue(neg: bool, whole: string, frac: string): real
    requires IsDecimal(whole, frac)
  {
    var magnitude := DigitsValue(whole) as real + DigitsValue(frac) as real / Pow10(|frac|) as real;
    if neg then -magnitude else magnitude
  }

  /** A Go number with an optional sign, read from its text. */
  function ParseNumber(s: string): Option<real> {
    var neg := HasPrefix(s, "-");
    var body := TrimPrefix(s, "-");
    var dot := Index(body, ".");
    if dot < 0 then
      if IsDecimal(body, "") then Some(DecimalValue(neg, body, "")) else None
    else if body[dot + 1..] != "" && IsDecimal(body[..dot], body[dot + 1..]) then
      Some(DecimalValue(neg, body[..dot], body[dot + 1..]))
    else
      None
  }

  /** Characters that stand for themselves between the quotes of a Go string. */
  predicate IsPlain(s: string) {
    forall i | 0 <= i < |s| :: s[i] !in "\"\\\n\r"
  }

  /** The value of text that stands where Go expects a literal operand. */
  function ParseLiteral(text: string): Option<Value> {
    var s := TrimSpace(text);
    if s == "true" then Some(Bool(true))
    else if s == "false" then Some(Bool(false))
    else if |s| >= 2 && s[0] == '"' && s[|s| - 1] == '"' && IsPlain(s[1..|s| - 1]) then
      Some(Str(s[1..|s| - 1]))
    else
      match ParseNumber(s)
      case Some(r) => Some(Num(r))
      case None => None
  }

  /** What a result expression is: the value of a literal, or an expression of a package. */
  datatype Returned = Known(value: Value) | Named(pkg: string, text: string, typ: GoType)

  /** The expressions of packages that stand as results. */
  function ParseNamed(s: string): Option<Returned> {
    if s in {"math.NaN()", "math.Inf(1)", "math.Inf(-1)", "math.Pi"} then Some(Named("math", s, TFloat64))
    else if s == "time.RFC3339" then Some(Named("time", s, TString))
    else if s == "time.Now()" then Some(Named("time", s, TTime))
    else None
  }

  /** One result, read from its text; a line break would end the statement. */
  function ParseResult(text: string): Option<Returned> {
    var s := TrimSpace(text);
    if '\n' in text then None
    else if ParseNamed(s).Some? then ParseNamed(s)
    else
      match ParseLiteral(text)
      case Some(v) => Some(Known(v))
      case None => None
  }

  // ------------------------------------------------- tokens and expressions

  datatype TimeMethod = Before | After | Equal

  datatype Token =
    | AndAnd | OrOr | LParen | RParen
    | Assert(key: string, typ: GoType)          // inputs["key"].(typ)
    | Op(op: string)
    | Lit(value: Value)
    | Call(when: TimeMethod, at: Civil)         // .When(time.Date(...))
    | Junk(text: string)                        // text that is no Go token
    | KwIf | KwReturn | LBrace | RBrace | Comma
    | Out(result: Returned)                     // a pasted result expression

  /** The operands of `&&` and `||`. */
  datatype Atom =
    | Compare(key: string, typ: GoType, op: string, value: Value)
    | When(key: string, test: TimeMethod, at: Civil)

  datatype Expr = Leaf(atom: Atom) | And(l: Expr, r: Expr) | Or(l: Expr, r: Expr)

  /** Does the comparison type-check? `=` assigns and so never does. */
  predicate WellFormed(a: Atom) {
    match a
    case When(_, _, _) => true
    case Compare(_, typ, op, value) =>
      && HasType(value, typ)
      && match typ
         case TString => op == "=="
         case TBool => op == "=="
         case TFloat64 => op in {"==", "<", "<=", ">", ">="}
         case TTime => false
  }

  function AtomTokens(a: Atom): seq<Token> {
    match a
    case Compare(key, typ, op, value) => [Assert(key, typ), Op(op), Lit(value)]
    case When(key, test, at) => [Assert(key, TTime), Call(test, at)]
  }

  /** `strings.Join` on emitted conditions. */
  function JoinTokens(parts: seq<seq<Token>>, sep: Token): seq<Token> {
    if |parts| == 0 then []
    else if |parts| == 1 then parts[0]
    else parts[0] + [sep] + JoinTokens(parts[1..], sep)
  }

  predicate StartsWith(ts: seq<Token>, t: Token) {
    ts != [] && ts[0] == t
  }

  datatype Parsed = Parsed(expr: Expr, rest: seq<Token>)

  function ParseLeaf(ts: seq<Token>): (r: Option<Parsed>)
    ensures r.Some? ==> |r.value.rest| < |ts|
  {
    if |ts| >= 3 && ts[0].Assert? && ts[1].Op? && ts[2].Lit? then
      var a := Compare(ts[0].key, ts[0].typ, ts[1].op, ts[2].value);
      if WellFormed(a) then Some(Parsed(Leaf(a), ts[3..])) else None
    else if |ts| >= 2 && ts[0].Assert? && ts[0].typ == TTime && ts[1].Call? then
      Some(Parsed(Leaf(When(ts[0].key, ts[1].when, ts[1].at)), ts[2..]))
    else
      None
  }

  function ParsePrimary(ts: seq<Token>): (r: Option<Parsed>)
    ensures r.Some? ==> |r.value.rest| < |ts|
    decreases |ts|, 0
  {
    if StartsWith(ts, LParen) then
      match ParseOr(ts[1..])
      case None => None
      case Some(p) => if StartsWith(p.rest, RParen) then Some(Parsed(p.expr, p.rest[1..])) else None
    else
      ParseLeaf(ts)
  }

  function ParseAnd(ts: seq<Token>): (r: Option<Parsed>)
    ensures r.Some? ==> |r.value.rest| < |ts|
    decreases |ts|, 1
  {
    match ParsePrimary(ts)
    case None => None
    case Some(p) => AndTail(p.expr, p.rest)
  }

  function AndTail(acc: Expr, ts: seq<Token>): (r: Option<Parsed>)
    ensures r.Some? ==> |r.value.rest| <= |ts|
    decreases |ts|, 1
  {
    if StartsWith(ts, AndAnd) then
      match ParsePrimary(ts[1..])
      case None => None
      case Some(p) => AndTail(And(acc, p.expr), p.rest)
    else
      Some(Parsed(acc, ts))
  }

  function ParseOr(ts: seq<Token>): (r: Option<Parsed>)
    ensures r.Some? ==> |r.value.rest| < |ts|
    decreases |ts|, 2
  {
    match ParseAnd(ts)
    case None => None
    case Some(p) => OrTail(p.expr, p.rest)
  }

  function OrTail(acc: Expr, ts: seq<Token>): (r: Option<Parsed>)
    ensures r.Some? ==> |r.value.rest| <= |ts|
    decreases |ts|, 2
  {
    if StartsWith(ts, OrOr) then
      match ParseAnd(ts[1..])
      case None => None
      case Some(p) => OrTail(Or(acc, p.expr), p.rest)
    else
      Some(Parsed(acc, ts))
  }

  // -------------------------------------------------------------- evaluation

  function CompareNum(op: string, x: real, y: real): bool {
    match op
    case "==" => x == y
    case "<" => x < y
    case "<=" => x <= y
    case ">" => x > y
    case ">=" => x >= y
    case _ => false
  }

  function CompareTime(test: TimeMethod, x: int, y: int): bool {
    match test
    case Before => x < y
    case After => x > y
    case Equal => x == y
  }

  /** None is a panic: the key is absent or holds another dynamic type. */
  function EvalAtom(a: Atom, inputs: Inputs): Option<bool> {
    if !WellFormed(a) || a.key !in inputs then None
    else
      var v := inputs[a.key];
      match a
      case Compare(_, typ, op, value) =>
        if !HasType(v, typ) then None
        else if typ == TFloat64 then Some(CompareNum(op, v.r, value.r))
        else Some(v == value)
      case When(_, test, at) =>
        if !HasType(v, TTime) then None else Some(CompareTime(test, v.t, Seconds(at)))
  }

  /** Short-circuit evaluation, left operand first. */
  function Eval(e: Expr, inputs: Inputs): Option<bool> {
    match e
    case Leaf(a) => EvalAtom(a, inputs)
    case And(l, r) => (match Eval(l, inputs)
                       case None => None
                       case Some(b) => if b then Eval(r, inputs) else Some(false))
    case Or(l, r) => (match Eval(l, inputs)
                      case None => None
                      case Some(b) => if b then Some(true) else Eval(r, inputs))
  }

  // ---------------------------------------------------------- function body

  /** `if cond { return outs }` statements ending in a `return`. */
  datatype Body = Return(outs: seq<Returned>) | If(cond: Expr, outs: seq<Returned>, rest: Body)

  datatype ParsedOuts = ParsedOuts(outs: seq<Returned>, rest: seq<Token>)

  /** A comma-separated list of result expressions; a comma needs a successor. */
  function ParseOuts(ts: seq<Token>): (r: Option<ParsedOuts>)
    ensures r.Some? ==> |r.value.rest| <= |ts|
  {
    if ts != [] && ts[0].Out? then
      if StartsWith(ts[1..], Comma) then
        match ParseOuts(ts[2..])
        case None => None
        case Some(p) => if p.outs == [] then None else Some(ParsedOuts([ts[0].result] + p.outs, p.rest))
      else
        Some(ParsedOuts([ts[0].result], ts[1..]))
    else
      Some(ParsedOuts([], ts))
  }

  /** The results of a `return` up to the closing brace. */
  function ParseReturn(ts: seq<Token>): (r: Option<ParsedOuts>)
    ensures r.Some? ==> |r.value.rest| < |ts|
  {
    if !StartsWith(ts, KwReturn) then None
    else
      match ParseOuts(ts[1..])
      case None => None
      case Some(p) => if StartsWith(p.rest, RBrace) then Some(ParsedOuts(p.outs, p.rest[1..])) else None
  }

  function ParseBody(ts: seq<Token>): Option<Body>
    decreases |ts|
  {
    if StartsWith(ts, KwIf) then
      match ParseOr(ts[1..])
      case None => None
      case Some(c) =>
        if !StartsWith(c.rest, LBrace) then None
        else
          match ParseReturn(c.rest[1..])
          case None => None
          case Some(p) =>
            match ParseBody(p.rest)
            case None => None
            case Some(b) => Some(If(c.expr, p.outs, b))
    else
      match ParseReturn(ts)
      case None => None
      case Some(p) => if p.rest == [] then Some(Return(p.outs)) else None
  }

  /** What the function returns; None is a panic. */
  function Run(b: Body, inputs: Inputs): Option<seq<Returned>> {
    match b
    case Return(outs) => Some(outs)
    case If(cond, outs, rest) =>
      match Eval(cond, inputs)
      case None => None
      case Some(c) => if c then Some(outs) else Run(rest, inputs)
  }

  // ------------------------------------------------------------------- files

  /** A generated file: its imports, the result types of its function, and the body. */
  datatype GoFile = GoFile(imports: seq<string>, results: seq<GoType>, body: seq<Token>)

  /** The token stands for text that names the package. */
  predicate NamesPackage(t: Token, pkg: string) {
    match t
    case Assert(_, typ) => typ == TTime && pkg == "time"
    case Call(_, _) => pkg == "time"
    case Out(r) => r.Named? && r.pkg == pkg
    case _ => false
  }

  predicate Uses(ts: seq<Token>, pkg: string) {
    exists i | 0 <= i < |ts| :: NamesPackage(ts[i], pkg)
  }

  /** Go rejects a package that is used but not imported, and one that is imported
      but not used. */
  predicate ImportsMatch(file: GoFile) {
    && ("time" in file.imports <==> Uses(file.body, "time"))
    && ("math" in file.imports <==> Uses(file.body, "math"))
  }

  predicate ResultFits(r: Returned, typ: GoType) {
    match r
    case Known(v) => HasType(v, typ)
    case Named(_, _, t) => t == typ
  }

  predicate ResultsFit(outs: seq<Returned>, results: seq<GoType>) {
    |outs| == |results| && forall i | 0 <= i < |outs| :: ResultFits(outs[i], results[i])
  }

  /** Every `return` gives as many results as the function has, of their types. */
  predicate Returns(b: Body, results: seq<GoType>) {
    match b
    case Return(outs) => ResultsFit(outs, results)
    case If(_, outs, rest) => ResultsFit(outs, results) && Returns(rest, results)
  }

  /** The compiled function, if Go accepts the file. */
  function Build(file: GoFile): Option<Body> {
    match ParseBody(file.body)
    case None => None
    case Some(b) => if ImportsMatch(file) && Returns(b, file.results) then Some(b) else None
  }

  /** What calling the function returns; None if the file does not build or the call
      panics. */
  function Execute(file: GoFile, inputs: Inputs): Option<seq<Returned>> {
    match Build(file)
    case None => None
    case Some(b) => Run(b, inputs)
  }
}
