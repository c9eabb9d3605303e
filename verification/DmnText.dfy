/** How the compiler's string functions read the text of each kind of cell. */
module DmnText {
  import opened Wrappers
  import opened Sequences
  import opened GoStrings
  import opened GoExpr
  import opened DmnTable
  import opened DmnCompiler

  // ---------------------------------------------------------------- numbers

  predicate NumChar(c: char) {
    '0' <= c <= '9' || c == '-' || c == '.'
  }

  lemma NumeralChars(n: Numeral)
    requires n.Wf()
    ensures n.Text() != ""
    ensures forall i | 0 <= i < |n.Text()| :: NumChar(n.Text()[i])
    ensures '0' <= n.Text()[|n.Text()| - 1] <= '9'
  {
  }

  lemma NoDots(a: string, t: string, b: string)
    requires '.' !in a && '.' !in b && !Contains(t, "..")
    ensures !Contains(a + t + b, "..")
  {
    var s := a + t + b;
    forall i ensures !OccursAt(s, "..", i) {
      if |a| <= i < |a| + |t| - 1 {
        DotsInside(a, t, b, i);
      } else if i == |a| + |t| - 1 && i >= |a| {
        NoOccurrence(s, "..", i, 1);
      } else {
        NoOccurrence(s, "..", i, 0);
      }
    }
  }

  lemma DotsInside(a: string, t: string, b: string, i: nat)
    requires |a| <= i < |a| + |t| - 1 && !Contains(t, "..")
    ensures !OccursAt(a + t + b, "..", i)
  {
    assert !OccursAt(t, "..", i - |a|);
    assert (a + t + b)[i..i + 2] == t[i - |a|..i - |a| + 2];
  }

  lemma NumeralNoDots(n: Numeral)
    requires n.Wf()
    ensures !Contains(n.Text(), "..")
  {
    var s := n.Text();
    forall i ensures !OccursAt(s, "..", i) {
      if 0 <= i < |s| && s[i] == '.' {
        NoOccurrence(s, "..", i, 1);
      } else {
        NoOccurrence(s, "..", i, 0);
      }
    }
  }

  lemma NumeralParses(n: Numeral)
    requires n.Wf()
    ensures ParseNumber(n.Text()) == Some(n.Value())
  {
    var fraction := if n.frac == "" then "" else "." + n.frac;
    var body := n.whole + fraction;
    if n.neg {
      assert n.Text() == "-" + body;
      IsPrefix("-", body);
    } else {
      assert n.Text() == body;
      NotPrefix(body, "-");
    }
    if n.frac == "" {
      assert body == n.whole;
      ForeignFirst(body, ".");
    } else {
      assert body == n.whole + "." + n.frac;
      FirstForeign(n.whole, ".", n.frac);
      assert body[..|n.whole|] == n.whole && body[|n.whole| + 1..] == n.frac;
    }
  }

  lemma BlankIsSpace(pad: string)
    requires IsBlank(pad)
    ensures AllIn(pad, SPACES)
  {
  }

  lemma NumberOperand(text: string, s: string, v: real)
    requires TrimSpace(text) == s && s != "" && NumChar(s[0]) && ParseNumber(s) == Some(v)
    ensures Paste(text) == Lit(Num(v))
  {
    assert "true"[0] == 't' && "false"[0] == 'f';
  }

  lemma NumeralTrims(before: string, n: Numeral, after: string)
    requires n.Wf() && IsBlank(before) && IsBlank(after)
    ensures TrimSpace(before + n.Text() + after) == n.Text()
  {
    NumeralChars(n);
    assert NumChar(n.Text()[0]);
    BlankIsSpace(before);
    BlankIsSpace(after);
    TrimPadded(before, n.Text(), after, SPACES);
  }

  /** A padded numeral is an operand of its value. */
  lemma NumeralOperand(before: string, n: Numeral, after: string)
    requires n.Wf() && IsBlank(before) && IsBlank(after)
    ensures TrimSpace(before + n.Text() + after) == n.Text()
    ensures Paste(before + n.Text() + after) == Lit(Num(n.Value()))
  {
    NumeralChars(n);
    NumeralTrims(before, n, after);
    NumeralParses(n);
    NumberOperand(before + n.Text() + after, n.Text(), n.Value());
  }

  lemma NumeralLiteral(n: Numeral)
    requires n.Wf()
    ensures Paste(n.Text()) == Lit(Num(n.Value()))
  {
    NumeralOperand("", n, "");
    assert "" + n.Text() + "" == n.Text();
  }

  lemma EqualToText(n: Numeral)
    requires n.Wf()
    ensures ExtractOperator(n.Text()) == ""
    ensures Trim(n.Text(), "<=>") == n.Text() && TrimSpace(n.Text()) == n.Text()
  {
    var s := n.Text();
    NumeralChars(n);
    assert NumChar(s[0]);
    NotPrefix(s, "<=");
    NotPrefix(s, ">=");
    NotPrefix(s, "<");
    NotPrefix(s, ">");
    NotPrefix(s, "=");
    TrimNothing(s, "<=>");
    TrimNothing(s, SPACES);
  }

  lemma OperatorText(rel: Rel, rest: string)
    requires rest != "" && rest[0] !in "<=>"
    ensures ExtractOperator(rel.Text() + rest) == rel.Text()
    ensures HasPrefix(rel.Text() + rest, rel.Text()) && TrimPrefix(rel.Text() + rest, rel.Text()) == rest
    ensures rel == LT ==> !HasPrefix(rel.Text() + rest, "<=") && !HasPrefix(rel.Text() + rest, ">=")
    ensures rel == GT ==> !HasPrefix(rel.Text() + rest, ">=") && !HasPrefix(rel.Text() + rest, "<=")
                          && !HasPrefix(rel.Text() + rest, "<")
    ensures rel == GE ==> !HasPrefix(rel.Text() + rest, "<=")
  {
    var s := rel.Text() + rest;
    IsPrefix(rel.Text(), rest);
    match rel {
      case LT =>
        assert s[1] == rest[0];
        NoOccurrence(s, "<=", 0, 1);
        NotPrefix(s, ">=");
      case LE =>
      case GT =>
        assert s[1] == rest[0];
        NoOccurrence(s, ">=", 0, 1);
        NotPrefix(s, "<=");
        NotPrefix(s, "<");
      case GE =>
        NotPrefix(s, "<=");
    }
  }

  /** What the string functions see of a padded numeral. */
  predicate NumberLike(s: string) {
    && s != "" && s[0] !in "<=>" && s[|s| - 1] !in "<=>." && '|' !in s
    && !Contains(s, "..")
  }

  lemma PaddedNumeral(before: string, n: Numeral, after: string)
    requires n.Wf() && IsBlank(before) && IsBlank(after)
    ensures NumberLike(before + n.Text() + after)
  {
    var t := n.Text();
    var s := before + t + after;
    NumeralChars(n);
    NumeralNoDots(n);
    assert NumChar(t[0]);
    NoDots(before, t, after);
    assert s[0] == if before == "" then t[0] else before[0];
    assert s[|s| - 1] == if after == "" then t[|t| - 1] else after[|after| - 1];
  }

  lemma OperatorTrim(rel: Rel, rest: string)
    requires NumberLike(rest)
    ensures Trim(rel.Text() + rest, "<=>") == rest
  {
    TrimPadded(rel.Text(), rest, "", "<=>");
    assert rel.Text() + rest + "" == rel.Text() + rest;
  }

  lemma OperatorNoDots(rel: Rel, rest: string)
    requires !Contains(rest, "..")
    ensures !Contains(rel.Text() + rest, "..")
  {
    NoDots(rel.Text(), rest, "");
    assert rel.Text() + rest + "" == rel.Text() + rest;
  }

  lemma RelatedText(rel: Rel, pad: string, n: Numeral)
    requires n.Wf() && IsBlank(pad)
    ensures var s := rel.Text() + pad + n.Text();
            ExtractOperator(s) == rel.Text() && Trim(s, "<=>") == pad + n.Text() && !Contains(s, "..")
  {
    var rest := pad + n.Text();
    PaddedNumeral(pad, n, "");
    assert pad + n.Text() + "" == rest;
    assert rel.Text() + pad + n.Text() == rel.Text() + rest;
    OperatorText(rel, rest);
    OperatorTrim(rel, rest);
    OperatorNoDots(rel, rest);
  }

  lemma SplitInTwo(left: string, right: string)
    requires left != "" && left[|left| - 1] != '.'
    requires !Contains(left, "..") && !Contains(right, "..")
    ensures Split(left + ".." + right, "..") == [left, right]
    ensures Contains(left + ".." + right, "..")
  {
    var s := left + ".." + right;
    FirstOccurrence(left, "..", right);
    assert s[..|left|] == left && s[|left| + 2..] == right;
    assert Split(right, "..") == [right];
  }

  lemma BracketsOff(open: char, inner: string, close: char)
    requires Contains(inner, "..")
    ensures var s := [open] + inner + [close]; |s| >= 2 && s[1..|s| - 1] == inner && Contains(s, "..")
  {
    var s := [open] + inner + [close];
    assert s[1..|s| - 1] == inner;
    var i := Index(inner, "..");
    assert s[i + 1..i + 3] == inner[i..i + 2];
    assert OccursAt(s, "..", i + 1);
  }

  lemma BetweenTextSplit(open: char, lo: Numeral, hi: Numeral, close: char, g: Gaps)
    requires lo.Wf() && hi.Wf() && g.Wf()
    ensures var s := BetweenText(open, lo, hi, close, g);
            && |s| >= 2 && Contains(s, "..")
            && Split(s[1..|s| - 1], "..") == [g.a + lo.Text() + g.b, g.c + hi.Text() + g.d]
  {
    var left, right := g.a + lo.Text() + g.b, g.c + hi.Text() + g.d;
    PaddedNumeral(g.a, lo, g.b);
    PaddedNumeral(g.c, hi, g.d);
    SplitInTwo(left, right);
    BracketsOff(open, left + ".." + right, close);
  }

  lemma BetweenTextEnds(open: char, lo: Numeral, hi: Numeral, close: char, g: Gaps)
    ensures var s := BetweenText(open, lo, hi, close, g);
            (HasPrefix(s, "[") <==> open == '[') && (HasSuffix(s, "]") <==> close == ']')
  {
    var s := BetweenText(open, lo, hi, close, g);
    assert s[0] == open && s[0..1] == [open];
    assert s[|s| - 1] == close && s[|s| - 1..|s|] == [close];
    assert "["[0] == '[' && "]"[0] == ']';
    assert "[" == ['['] && "]" == [']'];
  }

  // ---------------------------------------------------------------- strings

  lemma QuoteOperand(item: string)
    requires IsPlain(item)
    ensures Paste(Quote(item)) == Lit(Str(item))
  {
    var s := Quote(item);
    TrimNothing(s, SPACES);
    assert s[0] == '"' && s[1..|s| - 1] == item;
    assert "true"[0] == 't' && "false"[0] == 'f';
  }

  lemma {:induction false} TrimAll(s: string, cut: string)
    requires AllIn(s, cut)
    ensures TrimLeft(s, cut) == ""
  {
    if s != "" {
      TrimAll(s[1..], cut);
    }
  }

  lemma TrimQuote(item: string)
    requires IsPlain(item)
    ensures Trim(Quote(item), "\"") == item
  {
    if item == "" {
      TrimAll(Quote(item), "\"");
    } else {
      assert item[0] != '"' && item[|item| - 1] != '"';
      TrimPadded("\"", item, "\"", "\"");
    }
  }

  lemma TrimListItem(pad: string, item: string)
    requires ListItemWf(item) && IsBlank(pad)
    ensures Trim(pad + Quote(item), " \"") == item
  {
    var before := pad + "\"";
    assert pad + Quote(item) == before + item + "\"";
    if item == "" {
      TrimAll(pad + Quote(item), " \"");
    } else {
      TrimPadded(before, item, "\"", " \"");
    }
  }

  lemma SingleText(item: string)
    requires ItemWf(item)
    ensures !Contains(Quote(item), ",")
  {
    ForeignFirst(Quote(item), ",");
  }

  lemma ListTextSplit(items: seq<string>, pads: seq<string>)
    requires |items| == |pads| > 1
    requires forall i | 0 <= i < |items| :: ListItemWf(items[i]) && IsBlank(pads[i])
    ensures Contains(Join(ListTexts(items, pads), ","), ",")
    ensures Split(Join(ListTexts(items, pads), ","), ",") == ListTexts(items, pads)
  {
    var texts := ListTexts(items, pads);
    forall i | 0 <= i < |texts| ensures ','  !in texts[i] {
      assert texts[i] == pads[i] + Quote(items[i]);
      assert forall k | 0 <= k < |pads[i]| :: pads[i][k] in " ";
    }
    SplitJoin(texts, ",");
    var s := Join(texts, ",");
    assert s == texts[0] + "," + Join(texts[1..], ",");
    assert OccursAt(s, ",", |texts[0]|);
  }

  // ------------------------------------------------------------------ times

  lemma TwoDigits(n: int)
    requires 0 <= n < 100
    ensures IsDigits(Two(n)) && DigitsValue(Two(n)) == n
  {
    var s := Two(n);
    assert s[..1] == [Digit(n / 10)] && s[..1][..0] == "";
    assert DigitsValue(s[..1]) == n / 10;
  }

  lemma FourDigits(n: int)
    requires 0 <= n < 10000
    ensures IsDigits(Four(n)) && DigitsValue(Four(n)) == n
  {
    TwoDigits(n / 100);
    var s := Four(n);
    var low := n % 100;
    assert s[..3] == Two(n / 100) + [Digit(low / 10)];
    assert s[..3][..2] == Two(n / 100);
    assert DigitsValue(s[..3]) == 10 * DigitsValue(Two(n / 100)) + low / 10;
  }

  lemma StampParses(at: Stamp)
    requires at.Wf()
    ensures ParseRfc3339(at.Text()) == Some(at.civil)
  {
    var s, c := at.Text(), at.civil;
    FourDigits(c.year);
    TwoDigits(c.month);
    TwoDigits(c.day);
    TwoDigits(c.hour);
    TwoDigits(c.minute);
    TwoDigits(c.second);
    assert s[..4] == Four(c.year);
    assert s[5..7] == Two(c.month);
    assert s[8..10] == Two(c.day);
    assert s[11..13] == Two(c.hour);
    assert s[14..16] == Two(c.minute);
    assert s[17..19] == Two(c.second);
    assert s[19..] == at.ZoneText();
    if at.zone.Offset? {
      var z := at.ZoneText();
      TwoDigits(at.zone.hours);
      TwoDigits(at.zone.minutes);
      assert z[1..3] == Two(at.zone.hours) && z[4..6] == Two(at.zone.minutes);
    }
  }

  /** The printed date is the date as written: the zone of the stamp is lost. */
  lemma StampExtracts(at: Stamp)
    requires at.Wf()
    ensures ExtractTime(StampText(at)) == at.civil
  {
    var s := StampText(at);
    assert s == "date and time(\"" + (at.Text() + "\")");
    IsPrefix("date and time(\"", at.Text() + "\")");
    IsSuffix(at.Text(), "\")");
    StampParses(at);
  }

  lemma DigitsNoDot(n: int)
    requires 0 <= n < 100
    ensures '.' !in Two(n) && '|' !in Two(n)
  {
  }

  lemma StampChars(at: Stamp)
    requires at.Wf()
    ensures var s := StampText(at);
            |s| > 2 && s[0] == 'd' && s[|s| - 1] == ')' && '.' !in s && '|' !in s
  {
    var c := at.civil;
    DigitsNoDot(c.year / 100);
    DigitsNoDot(c.year % 100);
    DigitsNoDot(c.month);
    DigitsNoDot(c.day);
    DigitsNoDot(c.hour);
    DigitsNoDot(c.minute);
    DigitsNoDot(c.second);
    assert '.' !in Four(c.year) && '|' !in Four(c.year);
    if at.zone.Offset? {
      DigitsNoDot(at.zone.hours);
      DigitsNoDot(at.zone.minutes);
    }
    assert '.' !in at.ZoneText() && '|' !in at.ZoneText();
    assert '.' !in at.Text() && '|' !in at.Text();
    assert '.' !in "date and time(\"" && '|' !in "date and time(\"";
    var s := StampText(at);
    assert s[|s| - 1] == "\")"[1];
  }

  lemma StampTrims(before: string, at: Stamp, after: string)
    requires at.Wf() && IsBlank(before) && IsBlank(after)
    ensures TrimSpace(before + StampText(at) + after) == StampText(at)
  {
    StampChars(at);
    BlankIsSpace(before);
    BlankIsSpace(after);
    TrimPadded(before, StampText(at), after, SPACES);
  }

  lemma TimeAtText(at: Stamp)
    requires at.Wf()
    ensures var s := StampText(at);
            && !Contains(s, "..") && !HasPrefix(s, "<=") && !HasPrefix(s, ">=")
            && !HasPrefix(s, "<") && !HasPrefix(s, ">")
  {
    var s := StampText(at);
    StampChars(at);
    ForeignFirst(s, "..");
    NotPrefix(s, "<=");
    NotPrefix(s, ">=");
    NotPrefix(s, "<");
    NotPrefix(s, ">");
  }

  lemma TimeOperand(rel: Rel, pad: string, at: Stamp)
    requires at.Wf() && IsBlank(pad)
    ensures var rest := pad + StampText(at);
            && rest != "" && rest[0] !in "<=>" && '.' !in rest
            && ExtractTime(TrimSpace(rest)) == at.civil
  {
    StampChars(at);
    var rest := pad + StampText(at);
    assert rest[0] == if pad == "" then StampText(at)[0] else pad[0];
    StampTrims(pad, at, "");
    assert rest + "" == rest;
    StampExtracts(at);
    assert forall k | 0 <= k < |pad| :: pad[k] in " ";
  }

  lemma TimeRelatedText(rel: Rel, pad: string, at: Stamp)
    requires at.Wf() && IsBlank(pad)
    ensures var s := rel.Text() + pad + StampText(at);
            && !Contains(s, "..")
            && HasPrefix(s, rel.Text()) && ExtractTime(TrimSpace(TrimPrefix(s, rel.Text()))) == at.civil
            && (rel == LT ==> !HasPrefix(s, "<=") && !HasPrefix(s, ">="))
            && (rel == GT ==> !HasPrefix(s, ">=") && !HasPrefix(s, "<=") && !HasPrefix(s, "<"))
            && (rel == GE ==> !HasPrefix(s, "<="))
  {
    var rest := pad + StampText(at);
    TimeOperand(rel, pad, at);
    assert rel.Text() + pad + StampText(at) == rel.Text() + rest;
    OperatorText(rel, rest);
    assert '.' !in rel.Text();
    ForeignFirst(rel.Text() + rest, "..");
  }

  lemma TimeBound(before: string, mid: string, after: string)
    requires IsBlank(before) && IsBlank(after)
    requires mid != "" && mid[0] in "[](d" && mid[|mid| - 1] in ")][" && '.' !in mid
    ensures var s := before + mid + after;
            s != "" && s[|s| - 1] != '.' && !Contains(s, "..") && TrimSpace(s) == mid
  {
    var s := before + mid + after;
    BlankIsSpace(before);
    BlankIsSpace(after);
    assert '.' !in before && '.' !in after;
    ForeignFirst(s, "..");
    TrimPadded(before, mid, after, SPACES);
    assert s[|s| - 1] == if after == "" then mid[|mid| - 1] else after[|after| - 1];
  }

  /** The time that the compiler reads for a lower bound: its own only if it is included. */
  function LowerRead(open: char, from: Stamp): Civil {
    if open == '[' then from.civil else ZERO_TIME
  }

  function UpperRead(close: char, to: Stamp): Civil {
    if close == ']' then to.civil else ZERO_TIME
  }

  lemma LowerExtracts(open: char, from: Stamp)
    requires from.Wf() && open in "[]("
    ensures ExtractTime(TrimPrefix([open] + StampText(from), "[")) == LowerRead(open, from)
  {
    var s := [open] + StampText(from);
    if open == '[' {
      IsPrefix("[", StampText(from));
      StampExtracts(from);
    } else {
      NotPrefix(s, "[");
      NotPrefix(s, "date and time(\"");
      assert s == ([open] + "date and time(\"" + from.Text()) + "\")";
      IsSuffix([open] + "date and time(\"" + from.Text(), "\")");
      assert ([open] + "date and time(\"" + from.Text())[4] == 'e';
    }
  }

  lemma LongIsNoTime(at: Stamp, tail: string)
    requires at.Wf() && |tail| == 3
    ensures ParseRfc3339(at.Text() + tail) == None
  {
    var s := at.Text() + tail;
    assert s[19..] == at.ZoneText() + tail;
  }

  lemma UpperExtracts(to: Stamp, close: char)
    requires to.Wf() && close in "][)"
    ensures ExtractTime(TrimSuffix(StampText(to) + [close], "]")) == UpperRead(close, to)
  {
    var s := StampText(to) + [close];
    if close == ']' {
      IsSuffix(StampText(to), "]");
      StampExtracts(to);
    } else {
      NoOccurrence(s, "]", |s| - 1, 0);
      var rest := to.Text() + ("\")" + [close]);
      assert s == "date and time(\"" + rest;
      IsPrefix("date and time(\"", rest);
      assert rest[|rest| - 2] == ')';
      NoOccurrence(rest, "\")", |rest| - 2, 0);
      LongIsNoTime(to, "\")" + [close]);
    }
  }

  lemma TimeIntervalText(cell: Cell, typeRef: string)
    requires CellWritten(cell, typeRef) && cell.TimeBetween?
    ensures var g := cell.gaps;
            var left, right := g.a + [cell.open] + StampText(cell.from) + g.b,
                g.c + StampText(cell.to) + [cell.close] + g.d;
            && Text(cell, typeRef) == left + ".." + right
            && Contains(left + ".." + right, "..")
            && Split(left + ".." + right, "..") == [left, right]
            && ExtractTime(TrimPrefix(TrimSpace(left), "[")) == LowerRead(cell.open, cell.from)
            && ExtractTime(TrimSuffix(TrimSpace(right), "]")) == UpperRead(cell.close, cell.to)
  {
    var g := cell.gaps;
    var left, right := g.a + [cell.open] + StampText(cell.from) + g.b, g.c + StampText(cell.to) + [cell.close] + g.d;
    var first, last := [cell.open] + StampText(cell.from), StampText(cell.to) + [cell.close];
    StampChars(cell.from);
    StampChars(cell.to);
    Regroup(g.a, [cell.open], StampText(cell.from), g.b);
    Regroup(g.c, StampText(cell.to), [cell.close], g.d);
    SidesSplit(g, first, last);
    LowerExtracts(cell.open, cell.from);
    UpperExtracts(cell.to, cell.close);
  }

  lemma SidesSplit(g: Gaps, first: string, last: string)
    requires g.Wf() && '.' !in first && '.' !in last
    requires first != "" && first[0] in "[](d" && first[|first| - 1] in ")]["
    requires last != "" && last[0] in "[](d" && last[|last| - 1] in ")]["
    ensures var left, right := g.a + first + g.b, g.c + last + g.d;
            && Contains(left + ".." + right, "..")
            && Split(left + ".." + right, "..") == [left, right]
            && TrimSpace(left) == first && TrimSpace(right) == last
  {
    TimeBound(g.a, first, g.b);
    TimeBound(g.c, last, g.d);
    SplitInTwo(g.a + first + g.b, g.c + last + g.d);
  }

  // -------------------------------------------------------------- separator

  lemma NumeralNoBar(n: Numeral)
    requires n.Wf()
    ensures '|' !in n.Text()
  {
    NumeralChars(n);
  }

  lemma {:induction false} JoinNoBar(parts: seq<string>)
    requires forall i | 0 <= i < |parts| :: '|' !in parts[i]
    ensures '|' !in Join(parts, ",")
  {
    if |parts| > 1 {
      JoinNoBar(parts[1..]);
    }
  }

  lemma BlankNoBar(pad: string)
    requires IsBlank(pad)
    ensures '|' !in pad
  {
  }

  lemma ListNoBar(items: seq<string>, pads: seq<string>)
    requires |items| == |pads|
    requires forall i | 0 <= i < |items| :: '|' !in items[i] && IsBlank(pads[i])
    ensures '|' !in Join(ListTexts(items, pads), ",")
  {
    var texts := ListTexts(items, pads);
    forall i | 0 <= i < |texts| ensures '|' !in texts[i] {
      BlankNoBar(pads[i]);
    }
    JoinNoBar(texts);
  }

  lemma TimeNoBar(cell: Cell, typeRef: string)
    requires CellWf(cell, typeRef) && cell.TimeBetween?
    ensures '|' !in Text(cell, typeRef)
  {
    StampChars(cell.from);
    StampChars(cell.to);
    var g := cell.gaps;
    assert '|' !in g.a + [cell.open] + StampText(cell.from) + g.b;
    assert '|' !in g.c + StampText(cell.to) + [cell.close] + g.d;
  }

  lemma BetweenNoBar(cell: Cell, typeRef: string)
    requires CellWf(cell, typeRef) && cell.Between?
    ensures '|' !in Text(cell, typeRef)
  {
    var g := cell.gaps;
    PaddedNumeral(g.a, cell.lo, g.b);
    PaddedNumeral(g.c, cell.hi, g.d);
  }

  lemma OperatorNoBar(rel: Rel, pad: string, rest: string)
    requires IsBlank(pad) && '|' !in rest
    ensures '|' !in rel.Text() + pad + rest
  {
    BlankNoBar(pad);
  }

  lemma TextNoBar(cell: Cell, typeRef: string)
    requires CellWf(cell, typeRef)
    ensures '|' !in Text(cell, typeRef)
  {
    if cell.OneOf? {
      ListNoBar(cell.items, cell.pads);
    } else if cell.Between? {
      BetweenNoBar(cell, typeRef);
    } else if cell.TimeBetween? {
      TimeNoBar(cell, typeRef);
    } else if cell.Related? {
      NumeralNoBar(cell.n);
      OperatorNoBar(cell.rel, cell.pad, cell.n.Text());
    } else if cell.TimeRelated? {
      StampChars(cell.at);
      OperatorNoBar(cell.rel, cell.pad, StampText(cell.at));
    } else if cell.EqualTo? {
      NumeralNoBar(cell.n);
    } else if cell.TimeAt? {
      StampChars(cell.at);
    }
  }

  /** The cell and its type come back from the text stored in the map. */
  lemma EntrySplits(cell: Cell, typeRef: string)
    requires CellWf(cell, typeRef) && '|' !in typeRef
    ensures Split(Text(cell, typeRef) + "|" + typeRef, "|") == [Text(cell, typeRef), typeRef]
  {
    TextNoBar(cell, typeRef);
    var s := Text(cell, typeRef);
    var parts := [s, typeRef];
    assert parts[1..] == [typeRef];
    assert Join(parts, "|") == s + "|" + typeRef;
    SplitJoin(parts, "|");
  }
}
