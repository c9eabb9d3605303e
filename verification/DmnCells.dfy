/** What the compiler emits for one cell, and what Go makes of it. */
module DmnCells {
  import opened Sequences
  import opened GoStrings
  import opened GoExpr
  import opened GoCondition
  import opened DmnTable
  import opened DmnCompiler
  import opened DmnText

  /** `<=` and `>=` on times are emitted as a disjunction without parentheses. */
  predicate Loose(cell: Cell) {
    cell.TimeRelated? && cell.rel in {LE, GE}
  }

  function StringTestOf(key: string, item: string): Test {
    Compare(key, TString, "==", Str(item))
  }

  function ListTests(key: string, items: seq<string>): (r: seq<Test>)
    ensures |r| == |items|
    ensures forall i | 0 <= i < |r| :: r[i] == StringTestOf(key, items[i])
  {
    if items == [] then [] else [StringTestOf(key, items[0])] + ListTests(key, items[1..])
  }

  function StringGroups(key: string, items: seq<string>): (gs: seq<Group>)
    requires |items| >= 1
    ensures |gs| == 1
  {
    if |items| == 1 then [Group(One(StringTestOf(key, items[0])), [])]
    else [Group(Alt(StringTestOf(key, items[0]), ListTests(key, items[1..])), [])]
  }

  function NumberTest(key: string, op: string, v: real): Test
    requires op in {"==", "<", "<=", ">", ">="}
  {
    Compare(key, TFloat64, op, Num(v))
  }

  function LowerOp(open: char): string {
    if open == '[' then ">=" else ">"
  }

  function UpperOp(close: char): string {
    if close == ']' then "<=" else "<"
  }

  function BetweenGroups(key: string, open: char, lo: real, hi: real, close: char): (gs: seq<Group>)
    ensures |gs| == 1
  {
    [Group(One(NumberTest(key, LowerOp(open), lo)), [One(NumberTest(key, UpperOp(close), hi))])]
  }

  function TimeGroups(key: string, rel: Rel, at: Civil): (gs: seq<Group>)
    ensures gs != []
  {
    match rel
    case LT => [Group(One(When(key, Before, at)), [])]
    case GT => [Group(One(When(key, After, at)), [])]
    case LE => [Group(One(When(key, Before, at)), []), Group(One(When(key, Equal, at)), [])]
    case GE => [Group(One(When(key, After, at)), []), Group(One(When(key, Equal, at)), [])]
  }

  function TimeBetweenGroups(key: string, from: Civil, to: Civil): (gs: seq<Group>)
    ensures |gs| == 1
  {
    [Group(Alt(When(key, After, from), [When(key, Equal, from)]),
           [Alt(When(key, Before, to), [When(key, Equal, to)])])]
  }

  function BoolTest(key: string, b: bool): Test {
    Compare(key, TBool, "==", Bool(b))
  }

  /** The disjunction of conjunctions that the emitted text of the cell is. */
  function CellGroups(key: string, cell: Cell, typeRef: string): (gs: seq<Group>)
    requires CellWf(cell, typeRef) && cell != Blank
    ensures gs != [] && (!Loose(cell) ==> |gs| == 1)
  {
    match cell
    case OneOf(items, _) => StringGroups(key, items)
    case Quoted(item) => StringGroups(key, [item])
    case BoolIs(b) => [Group(One(BoolTest(key, b)), [])]
    case EqualTo(n) => [Group(One(NumberTest(key, "==", n.Value())), [])]
    case Related(rel, _, n) => [Group(One(NumberTest(key, rel.Text(), n.Value())), [])]
    case Between(open, lo, hi, close, _) => BetweenGroups(key, open, lo.Value(), hi.Value(), close)
    case TimeAt(at) => [Group(One(When(key, Equal, at.civil)), [])]
    case TimeRelated(rel, _, at) => TimeGroups(key, rel, at.civil)
    case TimeBetween(_, from, to, _, _) => TimeBetweenGroups(key, from.civil, to.civil)
  }

  // ------------------------------------------------------------ token shapes

  lemma TokensOne(a: Test)
    ensures Tokens([Group(One(a), [])]) == AtomTokens(a)
  {
  }

  lemma TokensBoth(c: Clause, d: Clause)
    ensures Tokens([Group(c, [d])]) == ClauseTokens(c) + [AndAnd] + ClauseTokens(d)
  {
    var g := Group(c, [d]);
    assert [d][1..] == [] && [g] + [] == [g];
    assert AndClauses([]) == [] && OrGroups([]) == [];
    assert AndClauses([d]) == [AndAnd] + (ClauseTokens(d) + AndClauses([]));
    TokensOpen(g, []);
  }

  lemma TokensEither(a: Test, b: Test)
    ensures Tokens([Group(One(a), []), Group(One(b), [])]) == AtomTokens(a) + [OrOr] + AtomTokens(b)
  {
    var g, h := Group(One(a), []), Group(One(b), []);
    assert [g, h] == [g] + [h];
    TokensCons(g, [h]);
  }

  lemma AltTwo(a: Test, b: Test)
    ensures ClauseTokens(Alt(a, [b])) == [LParen] + AtomTokens(a) + [OrOr] + AtomTokens(b) + [RParen]
  {
    assert [b][1..] == [];
    assert OrTests([b]) == [OrOr] + AtomTokens(b);
  }

  lemma StringTestTokens(key: string, item: string)
    requires IsPlain(key) && IsPlain(item)
    ensures StringTest(key, item) == AtomTokens(StringTestOf(key, item))
  {
    QuoteOperand(item);
  }

  lemma JoinFirst(first: seq<Token>, rest: seq<seq<Token>>, sep: Token)
    requires rest != []
    ensures JoinTokens([first] + rest, sep) == first + [sep] + JoinTokens(rest, sep)
  {
    assert ([first] + rest)[1..] == rest;
  }

  lemma ListTestsFirst(key: string, items: seq<string>)
    requires items != []
    ensures OrTests(ListTests(key, items))
        == [OrOr] + AtomTokens(StringTestOf(key, items[0])) + OrTests(ListTests(key, items[1..]))
  {
    assert ListTests(key, items)[1..] == ListTests(key, items[1..]);
  }

  lemma {:induction false} SeasonsTokens(key: string, seasons: seq<string>, items: seq<string>)
    requires IsPlain(key) && |seasons| == |items| >= 1
    requires forall i | 0 <= i < |items| :: IsPlain(items[i]) && Trim(seasons[i], " \"") == items[i]
    ensures JoinTokens(SeasonTests(key, seasons), OrOr)
         == AtomTokens(StringTestOf(key, items[0])) + OrTests(ListTests(key, items[1..]))
    decreases |seasons|
  {
    StringTestTokens(key, items[0]);
    assert SeasonTest(key, seasons[0]) == AtomTokens(StringTestOf(key, items[0]));
    if |seasons| > 1 {
      SeasonsTokens(key, seasons[1..], items[1..]);
      JoinFirst(SeasonTest(key, seasons[0]), SeasonTests(key, seasons[1..]), OrOr);
      assert items[1..][1..] == items[2..] && items[1..][0] == items[1];
      ListTestsFirst(key, items[1..]);
      Regroup(AtomTokens(StringTestOf(key, items[0])), [OrOr], AtomTokens(StringTestOf(key, items[1])),
              OrTests(ListTests(key, items[2..])));
    }
  }

  lemma TokensClause(c: Clause)
    ensures Tokens([Group(c, [])]) == ClauseTokens(c)
  {
  }

  lemma ListCompiles(key: string, items: seq<string>, pads: seq<string>)
    requires IsPlain(key) && CellWf(OneOf(items, pads), "string") && |items| > 1
    ensures StringCondition(key, Text(OneOf(items, pads), "string")) == Tokens(StringGroups(key, items))
  {
    ListTextSplit(items, pads);
    var seasons := ListTexts(items, pads);
    forall i | 0 <= i < |items| ensures Trim(seasons[i], " \"") == items[i] {
      TrimListItem(pads[i], items[i]);
    }
    SeasonsTokens(key, seasons, items);
    TokensClause(Alt(StringTestOf(key, items[0]), ListTests(key, items[1..])));
  }

  lemma StringCompiles(key: string, cell: Cell)
    requires IsPlain(key) && CellWf(cell, "string") && cell.OneOf?
    ensures StringCondition(key, Text(cell, "string")) == Tokens(StringGroups(key, cell.items))
  {
    var items := cell.items;
    if |items| == 1 {
      assert Text(cell, "string") == Quote(items[0]);
      SingleText(items[0]);
      TrimQuote(items[0]);
      StringTestTokens(key, items[0]);
      TokensOne(StringTestOf(key, items[0]));
    } else {
      ListCompiles(key, items, cell.pads);
    }
  }

  lemma BetweenCompiles(key: string, cell: Cell, typeRef: string)
    requires LabelWf(key) && CellWf(cell, typeRef) && cell.Between?
    ensures IntervalCondition(key, Text(cell, typeRef))
         == Tokens(BetweenGroups(key, cell.open, cell.lo.Value(), cell.hi.Value(), cell.close))
    ensures Contains(Text(cell, typeRef), "..")
  {
    var g := cell.gaps;
    BetweenTextSplit(cell.open, cell.lo, cell.hi, cell.close, g);
    BetweenTextEnds(cell.open, cell.lo, cell.hi, cell.close, g);
    NumeralOperand(g.a, cell.lo, g.b);
    NumeralOperand(g.c, cell.hi, g.d);
    NumeralLiteral(cell.lo);
    NumeralLiteral(cell.hi);
    ForeignFirst(key, ":");
    TokensBoth(One(NumberTest(key, LowerOp(cell.open), cell.lo.Value())),
               One(NumberTest(key, UpperOp(cell.close), cell.hi.Value())));
  }

  lemma EqualToCompiles(key: string, n: Numeral)
    requires LabelWf(key) && n.Wf()
    ensures NumberCondition(key, n.Text()) == ContextCondition(key, n.Text())
         == Tokens([Group(One(NumberTest(key, "==", n.Value())), [])])
    ensures n.Text() != ""
  {
    EqualToText(n);
    NumeralNoDots(n);
    NumeralLiteral(n);
    TokensOne(NumberTest(key, "==", n.Value()));
  }

  lemma RelatedCompiles(key: string, rel: Rel, pad: string, n: Numeral)
    requires LabelWf(key) && n.Wf() && IsBlank(pad)
    ensures var s := rel.Text() + pad + n.Text();
            NumberCondition(key, s) == ContextCondition(key, s)
         == Tokens([Group(One(NumberTest(key, rel.Text(), n.Value())), [])])
  {
    RelatedText(rel, pad, n);
    NumeralOperand(pad, n, "");
    NumeralLiteral(n);
    assert pad + n.Text() + "" == pad + n.Text();
    TokensOne(NumberTest(key, rel.Text(), n.Value()));
  }

  lemma TimeCompiles(key: string, cell: Cell, typeRef: string)
    requires LabelWf(key) && CellWf(cell, typeRef) && (cell.TimeAt? || cell.TimeRelated?)
    ensures CellCondition(key, Text(cell, typeRef), typeRef) == Tokens(CellGroups(key, cell, typeRef))
  {
    if cell.TimeAt? {
      StampChars(cell.at);
      TimeAtText(cell.at);
      StampExtracts(cell.at);
      TokensOne(When(key, Equal, cell.at.civil));
    } else {
      TimeRelatedText(cell.rel, cell.pad, cell.at);
      var at := cell.at.civil;
      match cell.rel {
        case LT => TokensOne(When(key, Before, at));
        case GT => TokensOne(When(key, After, at));
        case LE => TokensEither(When(key, Before, at), When(key, Equal, at));
        case GE => TokensEither(When(key, After, at), When(key, Equal, at));
      }
    }
  }

  lemma TimeIntervalTokens(key: string, from: Civil, to: Civil)
    requires IsPlain(key)
    ensures TimeInterval(key, from, to) == Tokens(TimeBetweenGroups(key, from, to))
  {
    var c := Alt(When(key, After, from), [When(key, Equal, from)]);
    var d := Alt(When(key, Before, to), [When(key, Equal, to)]);
    AltTwo(When(key, After, from), When(key, Equal, from));
    AltTwo(When(key, Before, to), When(key, Equal, to));
    TokensBoth(c, d);
    var left := [LParen] + TimeTest(key, After, from) + [OrOr] + TimeTest(key, Equal, from) + [RParen];
    assert ClauseTokens(c) == left;
    Regroup(left + [AndAnd] + [LParen] + TimeTest(key, Before, to), [OrOr], TimeTest(key, Equal, to), [RParen]);
  }

  /** Whatever the brackets, the compiled interval includes both of its bounds. */
  lemma TimeBetweenCompiles(key: string, cell: Cell, typeRef: string)
    requires LabelWf(key) && CellWritten(cell, typeRef) && cell.TimeBetween?
    ensures TimeCondition(key, Text(cell, typeRef))
         == Tokens(TimeBetweenGroups(key, LowerRead(cell.open, cell.from), UpperRead(cell.close, cell.to)))
  {
    TimeIntervalText(cell, typeRef);
    TimeIntervalTokens(key, LowerRead(cell.open, cell.from), UpperRead(cell.close, cell.to));
  }

  lemma BoolCompiles(key: string, b: bool)
    requires IsPlain(key)
    ensures [PastedKey(key, TBool), Op("=="), Paste(if b then "true" else "false")]
         == Tokens([Group(One(BoolTest(key, b)), [])])
  {
    TrimNothing("true", SPACES);
    TrimNothing("false", SPACES);
    TokensOne(BoolTest(key, b));
  }

  lemma TextNonEmpty(cell: Cell, typeRef: string)
    requires CellWf(cell, typeRef) && cell != Blank
    ensures Text(cell, typeRef) != ""
  {
    if cell.EqualTo? {
      NumeralChars(cell.n);
    } else if cell.OneOf? {
      assert ListTexts(cell.items, cell.pads)[0] != "";
    }
  }

  /** The text of a cell compiles to the tokens of its groups. */
  lemma CellCompiles(key: string, cell: Cell, typeRef: string)
    requires LabelWf(key) && CellWf(cell, typeRef) && cell != Blank
    ensures CellCondition(key, Text(cell, typeRef), typeRef) == Tokens(CellGroups(key, cell, typeRef))
  {
    TextNonEmpty(cell, typeRef);
    if cell.OneOf? {
      StringCompiles(key, cell);
    } else if cell.Quoted? {
      StringTestTokens(key, cell.item);
      TokensOne(StringTestOf(key, cell.item));
    } else if cell.BoolIs? {
      BoolCompiles(key, cell.b);
    } else if cell.EqualTo? {
      EqualToCompiles(key, cell.n);
    } else if cell.Related? {
      RelatedCompiles(key, cell.rel, cell.pad, cell.n);
    } else if cell.Between? {
      BetweenCompiles(key, cell, typeRef);
    } else if cell.TimeBetween? {
      TimeBetweenCompiles(key, cell, typeRef);
    } else {
      TimeCompiles(key, cell, typeRef);
    }
  }

  // ----------------------------------------------------------------- meaning

  lemma ListMeans(key: string, items: seq<string>, inputs: Inputs)
    requires |items| >= 1 && key in inputs && inputs[key].Str?
    ensures GroupsSafe(StringGroups(key, items), inputs)
    ensures GroupsTrue(StringGroups(key, items), inputs) <==> inputs[key].s in items
  {
    var gs := StringGroups(key, items);
    assert GroupsTrue(gs, inputs) <==> GroupTrue(gs[0], inputs);
    if |items| > 1 {
      var tests := ListTests(key, items[1..]);
      assert forall i | 0 <= i < |tests| :: TestTrue(tests[i], inputs) <==> inputs[key].s == items[1..][i];
      assert inputs[key].s in items <==> inputs[key].s == items[0] || inputs[key].s in items[1..];
    }
  }

  /** Evaluated on a value of the column's type, the emitted condition does not
      panic and says whether the cell accepts the value. */
  lemma CellMeans(key: string, cell: Cell, typeRef: string, inputs: Inputs)
    requires CellWf(cell, typeRef) && cell != Blank
    requires key in inputs && HasType(inputs[key], ColumnType(typeRef))
    ensures GroupsSafe(CellGroups(key, cell, typeRef), inputs)
    ensures GroupsTrue(CellGroups(key, cell, typeRef), inputs) <==> Accepts(cell, typeRef, inputs[key])
  {
    var gs := CellGroups(key, cell, typeRef);
    if cell.OneOf? {
      ListMeans(key, cell.items, inputs);
    } else if cell.Quoted? {
      ListMeans(key, [cell.item], inputs);
    } else if cell.TimeBetween? {
      TimeBetweenMeans(key, cell.from.civil, cell.to.civil, inputs);
    } else if cell.TimeRelated? {
      TimeRelatedMeans(key, cell.rel, cell.at.civil, inputs);
    } else if cell.Between? {
      BetweenMeans(key, cell.open, cell.lo.Value(), cell.hi.Value(), cell.close, inputs);
    } else {
      assert gs[0].tail == [];
    }
  }

  lemma TimeRelatedMeans(key: string, rel: Rel, at: Civil, inputs: Inputs)
    requires key in inputs && inputs[key].Instant?
    ensures var gs := TimeGroups(key, rel, at);
            && GroupsSafe(gs, inputs)
            && (GroupsTrue(gs, inputs) <==> RelTest(rel, inputs[key].t as real, Seconds(at) as real))
  {
    var gs := TimeGroups(key, rel, at);
    assert gs[0].tail == [];
    if |gs| == 2 {
      assert gs[1].tail == [];
    }
  }

  lemma BetweenMeans(key: string, open: char, lo: real, hi: real, close: char, inputs: Inputs)
    requires key in inputs && inputs[key].Num? && Brackets(open, close)
    ensures var gs := BetweenGroups(key, open, lo, hi, close);
            && GroupsSafe(gs, inputs)
            && (GroupsTrue(gs, inputs) <==> LowerTest(open, inputs[key].r, lo) && UpperTest(close, inputs[key].r, hi))
  {
    var gs := BetweenGroups(key, open, lo, hi, close);
    assert AllTrue(gs[0].tail, inputs) <==> ClauseTrue(gs[0].tail[0], inputs);
  }

  lemma TimeBetweenMeans(key: string, from: Civil, to: Civil, inputs: Inputs)
    requires key in inputs && inputs[key].Instant?
    ensures var gs := TimeBetweenGroups(key, from, to);
            GroupsSafe(gs, inputs) && (GroupsTrue(gs, inputs) <==> Seconds(from) <= inputs[key].t <= Seconds(to))
  {
    var gs := TimeBetweenGroups(key, from, to);
    TimeAltMeans(key, After, from, inputs);
    TimeAltMeans(key, Before, to, inputs);
    assert GroupsTrue(gs, inputs) <==> GroupTrue(gs[0], inputs);
    assert AllTrue(gs[0].tail, inputs) <==> ClauseTrue(gs[0].tail[0], inputs);
  }

  lemma TimeAltMeans(key: string, test: TimeMethod, at: Civil, inputs: Inputs)
    requires key in inputs && inputs[key].Instant?
    ensures var c := Alt(When(key, test, at), [When(key, Equal, at)]);
            && ClauseSafe(c, inputs)
            && (ClauseTrue(c, inputs)
                <==> CompareTime(test, inputs[key].t, Seconds(at)) || inputs[key].t == Seconds(at))
  {
    var others: seq<Test> := [When(key, Equal, at)];
    assert SomeTrue(others, inputs) <==> TestTrue(others[0], inputs);
  }
}
