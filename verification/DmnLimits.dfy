/** Where the compiler leaves DMN: texts of cells whose emitted condition does not mean
    what the cell says. */
module DmnLimits {
  import opened Wrappers
  import opened Sequences
  import opened GoStrings
  import opened GoExpr
  import opened GoCondition
  import opened DmnTable
  import opened DmnCompiler
  import opened DmnText
  import opened DmnCells

  /** A stamp keeps its instant exactly when it is written in UTC. */
  lemma ZoneIsLost(at: Stamp)
    requires at.Wf()
    ensures Seconds(ExtractTime(StampText(at))) == at.Instant() <==> at.OffsetSeconds() == 0
  {
    StampExtracts(at);
  }

  // --------------------------------------------------------- time intervals

  /** What Go computes for an emitted condition that stands alone. */
  function ConditionValue(condition: seq<Token>, inputs: Inputs): Option<bool> {
    match ParseOr(condition)
    case None => None
    case Some(p) => if p.rest == [] then Eval(p.expr, inputs) else None
  }

  lemma GroupsValue(gs: seq<Group>, inputs: Inputs)
    requires gs != [] && GroupsSafe(gs, inputs)
    ensures ConditionValue(Tokens(gs), inputs) == Some(GroupsTrue(gs, inputs))
  {
    TokensParse(gs, []);
    assert Tokens(gs) + [] == Tokens(gs);
    GroupsEval(gs, inputs);
  }

  /** The value of the emitted condition of a time interval: both bounds are included,
      and an excluded bound is the zero time. */
  lemma TimeIntervalReads(key: string, cell: Cell, inputs: Inputs)
    requires LabelWf(key) && CellWritten(cell, "dateTime") && cell.TimeBetween?
    requires key in inputs && inputs[key].Instant?
    ensures ConditionValue(CellCondition(key, Text(cell, "dateTime"), "dateTime"), inputs)
         == Some(Seconds(LowerRead(cell.open, cell.from)) <= inputs[key].t <= Seconds(UpperRead(cell.close, cell.to)))
  {
    var from, to := LowerRead(cell.open, cell.from), UpperRead(cell.close, cell.to);
    TimeBetweenCompiles(key, cell, "dateTime");
    TimeIntervalText(cell, "dateTime");
    TimeBetweenMeans(key, from, to, inputs);
    GroupsValue(TimeBetweenGroups(key, from, to), inputs);
  }

  /** The emitted condition says of every time whether the cell accepts it. */
  ghost predicate ReadsRight(key: string, cell: Cell)
    requires CellWritten(cell, "dateTime")
  {
    forall inputs: Inputs | key in inputs && inputs[key].Instant? ::
      ConditionValue(CellCondition(key, Text(cell, "dateTime"), "dateTime"), inputs)
      == Some(Accepts(cell, "dateTime", inputs[key]))
  }

  /** The first and the last second that an interval accepts. */
  function FirstAccepted(cell: Cell): int
    requires cell.TimeBetween?
  {
    if cell.open == '[' then cell.from.Instant() else cell.from.Instant() + 1
  }

  function LastAccepted(cell: Cell): int
    requires cell.TimeBetween?
  {
    if cell.close == ']' then cell.to.Instant() else cell.to.Instant() - 1
  }

  lemma AcceptsBetween(cell: Cell, v: int)
    requires CellWritten(cell, "dateTime") && cell.TimeBetween?
    ensures Accepts(cell, "dateTime", Instant(v)) <==> FirstAccepted(cell) <= v <= LastAccepted(cell)
  {
  }

  /** What a right reading says about one second. */
  lemma ReadsRightAt(key: string, cell: Cell, v: int)
    requires LabelWf(key) && CellWritten(cell, "dateTime") && cell.TimeBetween? && ReadsRight(key, cell)
    ensures Seconds(LowerRead(cell.open, cell.from)) <= v <= Seconds(UpperRead(cell.close, cell.to))
       <==> FirstAccepted(cell) <= v <= LastAccepted(cell)
  {
    var inputs: Inputs := map[key := Instant(v)];
    TimeIntervalReads(key, cell, inputs);
    RightOn(key, cell, inputs);
    AcceptsBetween(cell, v);
  }

  lemma RightOn(key: string, cell: Cell, inputs: Inputs)
    requires CellWritten(cell, "dateTime") && ReadsRight(key, cell) && key in inputs && inputs[key].Instant?
    ensures ConditionValue(CellCondition(key, Text(cell, "dateTime"), "dateTime"), inputs)
         == Some(Accepts(cell, "dateTime", inputs[key]))
  {
  }

  /** The bounds read are the first and the last second that the interval accepts. */
  predicate SameEnds(cell: Cell)
    requires cell.TimeBetween?
  {
    && Seconds(LowerRead(cell.open, cell.from)) == FirstAccepted(cell)
    && Seconds(UpperRead(cell.close, cell.to)) == LastAccepted(cell)
  }

  lemma EndsByBrackets(cell: Cell)
    requires CellWritten(cell, "dateTime") && cell.TimeBetween?
    ensures SameEnds(cell)
       <==> && (cell.open == '[' || Seconds(ZERO_TIME) == cell.from.Instant() + 1)
            && (cell.close == ']' || Seconds(ZERO_TIME) == cell.to.Instant() - 1)
  {
  }

  lemma RightNeedsEnds(key: string, cell: Cell)
    requires LabelWf(key) && CellWritten(cell, "dateTime") && cell.TimeBetween?
    requires cell.from.Instant() < cell.to.Instant() && ReadsRight(key, cell)
    ensures SameEnds(cell)
  {
    ReadsRightAt(key, cell, FirstAccepted(cell));
    ReadsRightAt(key, cell, FirstAccepted(cell) - 1);
    ReadsRightAt(key, cell, LastAccepted(cell));
    ReadsRightAt(key, cell, LastAccepted(cell) + 1);
    ReadsRightAt(key, cell, Seconds(ZERO_TIME));
  }

  lemma EndsAreRight(key: string, cell: Cell)
    requires LabelWf(key) && CellWritten(cell, "dateTime") && cell.TimeBetween? && SameEnds(cell)
    ensures ReadsRight(key, cell)
  {
    forall inputs: Inputs | key in inputs && inputs[key].Instant?
      ensures ConditionValue(CellCondition(key, Text(cell, "dateTime"), "dateTime"), inputs)
           == Some(Accepts(cell, "dateTime", inputs[key]))
    {
      TimeIntervalReads(key, cell, inputs);
      AcceptsBetween(cell, inputs[key].t);
    }
  }

  /** Exactly when the emitted condition of a time interval is right on every time: both
      bounds are included, or the zero time that stands in for an excluded bound happens
      to be the nearest second inside. */
  lemma TimeIntervalRightIff(key: string, cell: Cell)
    requires LabelWf(key) && CellWritten(cell, "dateTime") && cell.TimeBetween?
    requires cell.from.Instant() < cell.to.Instant()
    ensures ReadsRight(key, cell)
       <==> && (cell.open == '[' || Seconds(ZERO_TIME) == cell.from.Instant() + 1)
            && (cell.close == ']' || Seconds(ZERO_TIME) == cell.to.Instant() - 1)
  {
    if ReadsRight(key, cell) {
      RightNeedsEnds(key, cell);
    }
    if SameEnds(cell) {
      EndsAreRight(key, cell);
    }
    EndsByBrackets(cell);
  }

  /** So for times after the zero time, the brackets decide. */
  lemma TimeIntervalRightIffClosed(key: string, cell: Cell)
    requires LabelWf(key) && CellWritten(cell, "dateTime") && cell.TimeBetween?
    requires Seconds(ZERO_TIME) < cell.from.Instant() < cell.to.Instant()
    ensures ReadsRight(key, cell) <==> cell.open == '[' && cell.close == ']'
  {
    TimeIntervalRightIff(key, cell);
  }

  /** The failing inputs: an excluded lower bound is accepted, and an excluded upper
      bound rejects every time of the interval. */
  lemma ExcludedBoundFails(key: string, cell: Cell, inputs: Inputs)
    requires LabelWf(key) && CellWritten(cell, "dateTime") && cell.TimeBetween?
    requires Seconds(ZERO_TIME) < cell.from.Instant() < cell.to.Instant()
    requires key in inputs && inputs[key].Instant?
    ensures var value := ConditionValue(CellCondition(key, Text(cell, "dateTime"), "dateTime"), inputs);
            && (cell.open != '[' && cell.close == ']' && inputs[key].t == cell.from.Instant() ==>
                  value == Some(true) && !Accepts(cell, "dateTime", inputs[key]))
            && (cell.close != ']' && Accepts(cell, "dateTime", inputs[key]) ==> value == Some(false))
  {
    TimeIntervalReads(key, cell, inputs);
    AcceptsBetween(cell, inputs[key].t);
  }

  // ------------------------------------------------------------ a leading =

  /** Two tokens that start no condition. */
  lemma NotALeaf(ts: seq<Token>)
    requires ts != [] && ts[0] != LParen && ParseLeaf(ts).None?
    ensures ParseOr(ts).None?
  {
    assert ParsePrimary(ts).None?;
    assert ParseAnd(ts).None?;
  }

  lemma EqualsSignOperator(rest: string)
    ensures ComparisonOp("=" + rest) == Op("=")
  {
    var s := "=" + rest;
    NotPrefix(s, "<=");
    NotPrefix(s, ">=");
    NotPrefix(s, "<");
    NotPrefix(s, ">");
    IsPrefix("=", rest);
  }

  lemma AssignmentIsNoTest(key: Token, operand: Token, after: seq<Token>)
    requires key != LParen
    ensures ParseOr([key, Op("="), operand] + after).None?
  {
    var ts := [key, Op("="), operand] + after;
    assert ts[0] == key && ts[1] == Op("=");
    NotALeaf(ts);
  }

  /** A number or context cell that starts with `=` makes an assignment: no condition. */
  lemma EqualsSignIsNoTest(key: string, rest: string, typeRef: string, after: seq<Token>)
    requires typeRef == "number" || typeRef == "context"
    requires !Contains("=" + rest, "..")
    ensures ParseOr(CellCondition(key, "=" + rest, typeRef) + after).None?
  {
    var s := "=" + rest;
    EqualsSignOperator(rest);
    if typeRef == "number" {
      AssignmentIsNoTest(PastedKey(key, TFloat64), Paste(Trim(s, "<=>")), after);
    } else {
      AssignmentIsNoTest(QuotedKey(key, TFloat64), Paste(TrimSpace(Trim(s, "<=>"))), after);
    }
  }

  lemma {:induction false} TrimRightFirst(s: string)
    requires s != "" && s[0] !in SPACES
    ensures var t := TrimRight(s, SPACES); t != "" && t[0] == s[0]
  {
    if s[|s| - 1] in SPACES {
      TrimRightFirst(s[..|s| - 1]);
    }
  }

  /** Text that starts with a bracket is no literal. */
  lemma BracketIsJunk(s: string)
    requires s != "" && s[0] in "[]("
    ensures !Paste(TrimSpace(s)).Lit?
  {
    TrimSpaceFirst(s);
    TrimSpaceFirst(TrimSpace(s));
    BracketIsNoNumber(TrimSpace(TrimSpace(s)));
  }

  lemma TrimSpaceFirst(s: string)
    requires s != "" && s[0] !in SPACES
    ensures var t := TrimSpace(s); t != "" && t[0] == s[0]
  {
    TrimRightFirst(s);
  }

  lemma BracketIsNoNumber(s: string)
    requires s != "" && s[0] in "[]("
    ensures ParseNumber(s).None? && s != "true" && s != "false" && s[0] != '"'
  {
    NotPrefix(s, "-");
  }

  lemma DroppedIsJunk(k: Token, operand: Token, more: seq<Token>)
    requires k != LParen && !operand.Lit?
    ensures ParseOr([k, Op(">"), operand] + more).None?
  {
    var ts := [k, Op(">"), operand] + more;
    assert ts[0] == k && ts[1] == Op(">") && ts[2] == operand;
    NotALeaf(ts);
  }

  /** The interval that is emitted when there is no `[` to take off. */
  lemma IntervalTokens(key: string, value: string, left: string, right: string)
    requires |value| >= 2 && !HasPrefix(value, "[") && Split(value[1..|value| - 1], "..") == [left, right]
    ensures var k := PastedKey(IntervalKey(key), TFloat64);
            IntervalCondition(key, value) ==
            [k, Op(">"), Paste(TrimSpace(left))] + [AndAnd] +
            [k, Op(if HasSuffix(value, "]") then "<=" else "<"), Paste(TrimSpace(right))]
  {
  }

  lemma IntervalIsJunk(key: string, value: string, left: string, right: string, after: seq<Token>)
    requires |value| >= 2 && value[0] != '[' && Split(value[1..|value| - 1], "..") == [left, right]
    requires !Paste(TrimSpace(left)).Lit?
    ensures ParseOr(IntervalCondition(key, value) + after).None?
  {
    NotPrefix(value, "[");
    var k := PastedKey(IntervalKey(key), TFloat64);
    var upper := [k, Op(if HasSuffix(value, "]") then "<=" else "<"), Paste(TrimSpace(right))];
    IntervalTokens(key, value, left, right);
    Regroup([k, Op(">"), Paste(TrimSpace(left))], [AndAnd], upper, after);
    DroppedIsJunk(k, Paste(TrimSpace(left)), [AndAnd] + upper + after);
  }

  /** Nor does one in front of an interval make a condition: the interval's own bracket
      stays in the text of the lower bound. */
  lemma EqualsIntervalIsNoTest(key: string, cell: Cell, typeRef: string, after: seq<Token>)
    requires CellWf(cell, typeRef) && cell.Between?
    ensures ParseOr(CellCondition(key, "=" + Text(cell, typeRef), typeRef) + after).None?
  {
    var g := cell.gaps;
    var left, right := [cell.open] + (g.a + cell.lo.Text() + g.b), g.c + cell.hi.Text() + g.d;
    var value := "=" + Text(cell, typeRef);
    BracketStays(cell.open, cell.lo, cell.hi, cell.close, g);
    BracketIsJunk(left);
    IntervalIsJunk(key, value, left, right, after);
    DottedCondition(key, value, typeRef);
  }

  lemma DottedCondition(key: string, value: string, typeRef: string)
    requires value != "" && Contains(value, "..") && (typeRef == "number" || typeRef == "context")
    ensures CellCondition(key, value, typeRef) == IntervalCondition(key, value)
  {
  }

  lemma BracketStays(open: char, lo: Numeral, hi: Numeral, close: char, g: Gaps)
    requires lo.Wf() && hi.Wf() && g.Wf() && Brackets(open, close)
    ensures var value := "=" + BetweenText(open, lo, hi, close, g);
            var left, right := [open] + (g.a + lo.Text() + g.b), g.c + hi.Text() + g.d;
            && |value| >= 2 && Contains(value, "..") && Split(value[1..|value| - 1], "..") == [left, right]
  {
    PaddedNumeral(g.a, lo, g.b);
    PaddedNumeral(g.c, hi, g.d);
    EqualsSplits(open, g.a + lo.Text() + g.b, g.c + hi.Text() + g.d, close);
    DottedText(open, lo, hi, close, g);
  }

  lemma DottedText(open: char, lo: Numeral, hi: Numeral, close: char, g: Gaps)
    requires lo.Wf() && hi.Wf()
    ensures "=" + BetweenText(open, lo, hi, close, g)
         == "=" + ([open] + ((g.a + lo.Text() + g.b) + ".." + (g.c + hi.Text() + g.d)) + [close])
  {
  }

  lemma EqualsSplits(open: char, inner: string, right: string, close: char)
    requires open in "[](" && NumberLike(inner) && NumberLike(right)
    ensures var value := "=" + ([open] + (inner + ".." + right) + [close]);
            && |value| >= 2 && Contains(value, "..")
            && Split(value[1..|value| - 1], "..") == [[open] + inner, right]
  {
    BracketSplits(open, inner, right);
    EqualsText(open, inner, right, close);
  }

  lemma BracketSplits(open: char, inner: string, right: string)
    requires open in "[](" && NumberLike(inner) && NumberLike(right)
    ensures Split(([open] + inner) + ".." + right, "..") == [[open] + inner, right]
  {
    NoDots([open], inner, "");
    assert [open] + inner + "" == [open] + inner;
    SplitInTwo([open] + inner, right);
  }

  lemma EqualsText(open: char, inner: string, right: string, close: char)
    ensures var value := "=" + ([open] + (inner + ".." + right) + [close]);
            && |value| >= 2 && Contains(value, "..") && value[1..|value| - 1] == ([open] + inner) + ".." + right
  {
    var value := "=" + ([open] + (inner + ".." + right) + [close]);
    var n := |inner| + 2;
    assert value[n..n + 2] == "..";
    assert OccursAt(value, "..", n);
  }

  // ------------------------------------------------------------------- dash

  lemma TestReads(a: Test)
    ensures ParseOr(AtomTokens(a)) == Some(Parsed(Leaf(a), []))
  {
    TestParses(a, []);
    assert AtomTokens(a) + [] == AtomTokens(a);
    assert ParseAnd(AtomTokens(a)) == AndTail(Leaf(a), []);
  }

  /** DMN's `-` (any value) is compiled to a comparison with the string "-". */
  lemma DashIsALiteral(key: string, inputs: Inputs)
    requires IsPlain(key) && key in inputs && inputs[key].Str?
    ensures var p := ParseOr(CellCondition(key, "-", "string"));
            p.Some? && p.value.rest == [] && Eval(p.value.expr, inputs) == Some(inputs[key].s == "-")
  {
    ForeignFirst("-", ",");
    TrimNothing("-", "\"");
    StringTestTokens(key, "-");
    assert CellCondition(key, "-", "string") == AtomTokens(StringTestOf(key, "-"));
    TestReads(StringTestOf(key, "-"));
  }
}
