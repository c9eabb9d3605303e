/** The last rewriting steps each respell one kind of token that stands between
    blanks: `=` as `==`, `and` as `&&`, `or` as `||`. */
module Respelling {
  import opened GoStrings
  import opened Identifiers
  import opened Condition
  import opened Feel
  import opened Rewriting

  // ------------------------------------------------------------- one respelling

  type Rewriter = string -> string

  /** `a` can be stepped over in front of `b`. */
  type Skipper = (string, string) -> bool

  predicate Glue(k: Tok) {
    k == Comp(Eq) || k == AndTok || k == OrTok
  }

  function Spaced(st: Style, k: Tok): string {
    " " + Word(st, k) + " "
  }

  ghost predicate Steps(r: Rewriter, skip: Skipper) {
    r("") == "" && forall a, b | skip(a, b) :: r(a + b) == a + r(b)
  }

  /** `r` turns the spelling `st` of the token `k` into the spelling `st2`. */
  ghost predicate Respells(r: Rewriter, k: Tok, st: Style, st2: Style) {
    && st.layout == st2.layout == Narrow
    && (forall t | t != k :: Word(st, t) == Word(st2, t))
    && (forall b :: r(Spaced(st, k) + b) == Spaced(st2, k) + r(b))
  }

  /** Nothing to respell starts in a word, or in the blank in front of another token. */
  ghost predicate Finds(skip: Skipper, k: Tok, st: Style) {
    && (forall t, b | TokWf(t) :: skip(Word(st, t), b))
    && skip("", "") && (forall b :: skip("", b))
    && (forall toks, gaps | Linked(toks) && |gaps| == |toks| && toks[0] != k :: skip(" ", Spell(st, toks, gaps)))
  }

  lemma SpellStep(st: Style, toks: seq<Tok>, gaps: seq<nat>)
    requires |toks| == |gaps| > 1
    ensures Spell(st, toks, gaps)
        == Word(st, toks[0]) + (Sep(st.layout, toks[0], toks[1], gaps[0]) + Spell(st, toks[1..], gaps[1..]))
  {
  }

  lemma NarrowGlue(t: Tok, u: Tok, gap: nat)
    requires Glue(t) || Glue(u)
    requires Joint(t) || Joint(u) ==> gap > 0
    ensures Sep(Narrow, t, u, gap) == " "
  {
  }

  lemma Surround(w: string, kw: string, rest: string)
    ensures w + (" " + (kw + (" " + rest))) == w + ((" " + kw + " ") + rest)
  {
  }

  lemma SpellGlue(st: Style, toks: seq<Tok>, gaps: seq<nat>)
    requires |toks| == |gaps| > 2 && Glue(toks[1]) && GapsWf(toks, gaps) && st.layout == Narrow
    ensures Spell(st, toks, gaps) == Word(st, toks[0]) + (Spaced(st, toks[1]) + Spell(st, toks[2..], gaps[2..]))
  {
    SpellStep(st, toks, gaps);
    SpellStep(st, toks[1..], gaps[1..]);
    assert GapWf(toks, gaps, 0) && GapWf(toks, gaps, 1);
    NarrowGlue(toks[0], toks[1], gaps[0]);
    NarrowGlue(toks[1], toks[2], gaps[1]);
    assert toks[1..][1..] == toks[2..] && gaps[1..][1..] == gaps[2..];
    Surround(Word(st, toks[0]), Word(st, toks[1]), Spell(st, toks[2..], gaps[2..]));
  }

  lemma StepGlue(r: Rewriter, skip: Skipper, w: string, sp: string, sp2: string, rest: string)
    requires Steps(r, skip) && skip(w, sp + rest) && r(sp + rest) == sp2 + r(rest)
    ensures r(w + (sp + rest)) == w + (sp2 + r(rest))
  {
  }

  lemma StepWord(r: Rewriter, skip: Skipper, w: string, sep: string, rest: string)
    requires Steps(r, skip) && skip(w, sep + rest) && skip(sep, rest)
    ensures r(w + (sep + rest)) == w + (sep + r(rest))
  {
  }

  lemma LinkedTwice(toks: seq<Tok>, gaps: seq<nat>)
    requires Linked(toks) && GapsWf(toks, gaps) && |toks| > 2
    ensures Linked(toks[2..]) && GapsWf(toks[2..], gaps[2..]) && Follows(toks[1], toks[2])
  {
    LinkedTail(toks);
    GapsTail(toks, gaps);
    LinkedTail(toks[1..]);
    GapsTail(toks[1..], gaps[1..]);
    assert toks[1..][1..] == toks[2..] && gaps[1..][1..] == gaps[2..];
  }

  lemma RespellGlue(r: Rewriter, skip: Skipper, k: Tok, st: Style, st2: Style, toks: seq<Tok>, gaps: seq<nat>)
    requires Steps(r, skip) && Respells(r, k, st, st2) && Finds(skip, k, st) && Glue(k)
    requires |toks| == |gaps| > 2 && TokWf(toks[0]) && GapsWf(toks, gaps) && toks[0] != k && toks[1] == k
    requires r(Spell(st, toks[2..], gaps[2..])) == Spell(st2, toks[2..], gaps[2..])
    ensures r(Spell(st, toks, gaps)) == Spell(st2, toks, gaps)
  {
    SpellGlue(st, toks, gaps);
    SpellGlue(st2, toks, gaps);
    StepGlue(r, skip, Word(st, toks[0]), Spaced(st, k), Spaced(st2, k), Spell(st, toks[2..], gaps[2..]));
  }

  lemma RespellOther(r: Rewriter, skip: Skipper, k: Tok, st: Style, st2: Style, toks: seq<Tok>, gaps: seq<nat>)
    requires Steps(r, skip) && Respells(r, k, st, st2) && Finds(skip, k, st) && Glue(k)
    requires |toks| == |gaps| > 1 && TokWf(toks[0]) && Linked(toks[1..]) && toks[0] != k && toks[1] != k
    requires r(Spell(st, toks[1..], gaps[1..])) == Spell(st2, toks[1..], gaps[1..])
    ensures r(Spell(st, toks, gaps)) == Spell(st2, toks, gaps)
  {
    SpellStep(st, toks, gaps);
    SpellStep(st2, toks, gaps);
    StepWord(r, skip, Word(st, toks[0]), Sep(Narrow, toks[0], toks[1], gaps[0]), Spell(st, toks[1..], gaps[1..]));
  }

  lemma {:induction false} SpellRespelled(r: Rewriter, skip: Skipper, k: Tok, st: Style, st2: Style, toks: seq<Tok>,
                                          gaps: seq<nat>)
    requires Steps(r, skip) && Respells(r, k, st, st2) && Finds(skip, k, st) && Glue(k)
    requires Linked(toks) && GapsWf(toks, gaps) && toks[0] != k
    ensures r(Spell(st, toks, gaps)) == Spell(st2, toks, gaps)
    decreases |toks|
  {
    if |toks| == 1 {
      var w := Word(st, toks[0]);
      assert skip(w, "") && w + "" == w;
    } else {
      LinkedTail(toks);
      GapsTail(toks, gaps);
      if toks[1] == k {
        assert |toks| > 2;
        LinkedTwice(toks, gaps);
        SpellRespelled(r, skip, k, st, st2, toks[2..], gaps[2..]);
        RespellGlue(r, skip, k, st, st2, toks, gaps);
      } else {
        SpellRespelled(r, skip, k, st, st2, toks[1..], gaps[1..]);
        RespellOther(r, skip, k, st, st2, toks, gaps);
      }
    }
  }

  // ------------------------------------------------------------- = to ==

  ghost predicate EqualsSkips(a: string, b: string) {
    forall i | 0 <= i < |a| :: !EqualsAt(a + b, i)
  }

  lemma ReplaceEqualsOne(c: char, b: string)
    requires !EqualsAt([c] + b, 0)
    ensures ReplaceEquals([c] + b) == [c] + ReplaceEquals(b)
  {
    assert ([c] + b)[1..] == b;
    if |b| < 2 {
      assert ReplaceEquals(b) == b;
    }
  }

  lemma {:induction false} ReplaceEqualsSkips(a: string, b: string)
    requires EqualsSkips(a, b)
    ensures ReplaceEquals(a + b) == a + ReplaceEquals(b)
  {
    if a == "" {
      assert a + b == b;
    } else {
      var tail := a[1..] + b;
      assert a + b == [a[0]] + tail;
      forall i | 0 <= i < |a[1..]| ensures !EqualsAt(tail, i) {
        assert !EqualsAt(a + b, i + 1);
      }
      assert !EqualsAt(a + b, 0);
      ReplaceEqualsSkips(a[1..], b);
      ReplaceEqualsOne(a[0], tail);
      assert [a[0]] + (a[1..] + ReplaceEquals(b)) == a + ReplaceEquals(b);
    }
  }

  lemma QuotedEquals(t: string, b: string)
    requires !SpacedEquals(t)
    ensures EqualsSkips("\"" + t + "\"", b)
  {
    var q := "\"" + t + "\"";
    var s := q + b;
    forall i | 0 <= i < |q| ensures !EqualsAt(s, i) {
      assert 0 < i <= |t| ==> s[i] == t[i - 1];
      assert i == 0 || i == |q| - 1 ==> s[i] == '"';
      assert i + 1 == |q| - 1 ==> s[i + 1] == '"';
      assert i + 2 == |q| - 1 ==> s[i + 2] == '"';
      assert !EqualsAt(t, i - 1);
    }
  }

  lemma WordEquals(t: Tok, b: string)
    requires TokWf(t)
    ensures EqualsSkips(Word(FEEL, t), b)
  {
    var w := Word(FEEL, t);
    if t.Value? && t.lit.Quoted? {
      QuotedEquals(t.lit.text, b);
    } else {
      assert forall i | 0 <= i < |w| :: w[i] !in SPACES;
      forall i | 0 <= i < |w| ensures !EqualsAt(w + b, i) {
        assert (w + b)[i] == w[i];
      }
    }
  }

  lemma BlankEquals(toks: seq<Tok>, gaps: seq<nat>)
    requires Linked(toks) && |gaps| == |toks| && toks[0] != Comp(Eq)
    ensures EqualsSkips(" ", Spell(FEEL, toks, gaps))
  {
    var s, w := Spell(FEEL, toks, gaps), Word(FEEL, toks[0]);
    SpellStart(FEEL, toks, gaps);
    assert w != "" && w[0] != '=' && s[0] == w[0];
    assert (" " + s)[1] == w[0];
  }

  ghost predicate IsEqualsStep(r: Rewriter, skip: Skipper) {
    (forall s :: r(s) == ReplaceEquals(s)) && (forall a, b :: skip(a, b) <==> EqualsSkips(a, b))
  }

  lemma EqualsSteps(r: Rewriter, skip: Skipper)
    requires IsEqualsStep(r, skip)
    ensures Steps(r, skip)
  {
    forall a, b | skip(a, b) ensures r(a + b) == a + r(b) {
      ReplaceEqualsSkips(a, b);
    }
  }

  lemma EqualsRespells(r: Rewriter, skip: Skipper)
    requires IsEqualsStep(r, skip)
    ensures Respells(r, Comp(Eq), FEEL, EQUALS)
  {
    forall b ensures r(Spaced(FEEL, Comp(Eq)) + b) == Spaced(EQUALS, Comp(Eq)) + r(b) {
      assert (" = " + b)[3..] == b;
    }
  }

  lemma EqualsFinds(r: Rewriter, skip: Skipper)
    requires IsEqualsStep(r, skip)
    ensures Finds(skip, Comp(Eq), FEEL)
  {
    forall t, b | TokWf(t) ensures skip(Word(FEEL, t), b) {
      WordEquals(t, b);
    }
    forall toks, gaps | Linked(toks) && |gaps| == |toks| && toks[0] != Comp(Eq)
      ensures skip(" ", Spell(FEEL, toks, gaps))
    {
      BlankEquals(toks, gaps);
    }
  }

  /** The third step respells `=`. */
  lemma EqualsRespelled(toks: seq<Tok>, gaps: seq<nat>)
    requires Linked(toks) && GapsWf(toks, gaps) && toks[0] != Comp(Eq)
    ensures ReplaceEquals(Spell(FEEL, toks, gaps)) == Spell(EQUALS, toks, gaps)
  {
    var r := s => ReplaceEquals(s);
    var skip: Skipper := (a, b) => forall i | 0 <= i < |a| :: !EqualsAt(a + b, i);
    EqualsSteps(r, skip);
    EqualsRespells(r, skip);
    EqualsFinds(r, skip);
    SpellRespelled(r, skip, Comp(Eq), FEEL, EQUALS, toks, gaps);
  }

  // ------------------------------------------------------- and, or to &&, ||

  /** A word between blanks is found only where the text goes on with that word. */
  lemma KeywordHead(s: string, word: string)
    requires Ident(word)
    ensures OccursAt(" " + s, " " + word + " ", 0) ==> Head(s) == word
  {
    var sub := " " + word + " ";
    if OccursAt(" " + s, sub, 0) {
      assert forall i | 0 <= i < |sub| :: (" " + s)[0..|sub|][i] == sub[i];
      assert forall i | 0 <= i < |word| :: s[i] == sub[i + 1] == word[i];
      assert s[|word|] == sub[|word| + 1] == ' ';
      assert s == word + s[|word|..];
      HeadIs(word, s[|word|..]);
    }
  }

  lemma SpellHead(st: Style, toks: seq<Tok>, gaps: seq<nat>)
    requires Linked(toks) && |gaps| == |toks| && st.layout == Narrow
    requires toks[0].Name?
    ensures Head(Spell(st, toks, gaps)) == toks[0].name
  {
    LinkedTail(toks);
    SpellStep(st, toks, gaps);
    var w, rest := Word(st, toks[0]), Sep(Narrow, toks[0], toks[1], gaps[0]) + Spell(st, toks[1..], gaps[1..]);
    SpellStart(st, toks[1..], gaps[1..]);
    HeadIs(w, rest);
  }

  /** The step that respells the word `word` of the token `k`. */
  ghost predicate IsWordStep(r: Rewriter, skip: Skipper, word: string, new_: string) {
    && (forall s :: r(s) == ReplaceAll(s, " " + word + " ", " " + new_ + " "))
    && (forall a, b :: skip(a, b) <==> Skips(a, b, " " + word + " "))
  }

  lemma WordSteps(r: Rewriter, skip: Skipper, word: string, new_: string)
    requires IsWordStep(r, skip, word, new_)
    ensures Steps(r, skip)
  {
    forall a, b | skip(a, b) ensures r(a + b) == a + r(b) {
      ReplaceSkips(a, b, " " + word + " ", " " + new_ + " ");
    }
    assert ReplaceAll("", " " + word + " ", " " + new_ + " ") == "";
  }

  lemma WordRespells(r: Rewriter, skip: Skipper, k: Tok, word: string, new_: string, st: Style, st2: Style)
    requires IsWordStep(r, skip, word, new_)
    requires st.layout == st2.layout == Narrow && Word(st, k) == word && Word(st2, k) == new_
    requires forall t | t != k :: Word(st, t) == Word(st2, t)
    ensures Respells(r, k, st, st2)
  {
    forall b ensures r(Spaced(st, k) + b) == Spaced(st2, k) + r(b) {
      ReplaceHere(b, " " + word + " ", " " + new_ + " ");
    }
  }

  predicate FreeOf(t: Tok, sub: string) {
    t.Value? && t.lit.Quoted? ==> !Contains(t.lit.text, sub)
  }

  lemma WordSkips(st: Style, t: Tok, b: string, sub: string)
    requires st == EQUALS || st == ANDS
    requires TokWf(t) && FreeOf(t, sub) && sub != "" && sub[0] == ' ' && forall i | 0 <= i < |sub| :: sub[i] != '"'
    ensures Skips(Word(st, t), b, sub)
  {
    if t.Value? && t.lit.Quoted? {
      SkipsQuoted(t.lit.text, b, sub);
    } else {
      SkipsForeign(Word(st, t), b, sub);
    }
  }

  lemma BlankSkips(st: Style, toks: seq<Tok>, gaps: seq<nat>, word: string)
    requires st.layout == Narrow && Linked(toks) && |gaps| == |toks| && Ident(word) && Reserved(word)
    requires toks[0].Name? || (Word(st, toks[0]) != "" && Word(st, toks[0])[0] != word[0])
    ensures Skips(" ", Spell(st, toks, gaps), " " + word + " ")
  {
    var s := Spell(st, toks, gaps);
    if toks[0].Name? {
      SpellHead(st, toks, gaps);
      KeywordHead(s, word);
    } else {
      SpellStart(st, toks, gaps);
      assert (" " + s)[1] == Word(st, toks[0])[0];
      NoOccurrence(" " + s, " " + word + " ", 0, 1);
    }
  }

  lemma WordFinds(r: Rewriter, skip: Skipper, k: Tok, word: string, new_: string, st: Style)
    requires IsWordStep(r, skip, word, new_)
    requires (k == AndTok && word == "and" && st == EQUALS) || (k == OrTok && word == "or" && st == ANDS)
    ensures Finds(skip, k, st)
  {
    assert " and " == " " + "and" + " " && " or " == " " + "or" + " ";
    forall t, b | TokWf(t) ensures skip(Word(st, t), b) {
      WordSkips(st, t, b, " " + word + " ");
    }
    forall toks, gaps | Linked(toks) && |gaps| == |toks| && toks[0] != k ensures skip(" ", Spell(st, toks, gaps)) {
      assert TokWf(toks[0]);
      BlankSkips(st, toks, gaps, word);
    }
  }

  /** The fourth step respells `and`, the fifth `or`. */
  lemma WordRespelled(k: Tok, word: string, new_: string, st: Style, st2: Style, toks: seq<Tok>, gaps: seq<nat>)
    requires (k == AndTok && word == "and" && new_ == "&&" && st == EQUALS && st2 == ANDS)
          || (k == OrTok && word == "or" && new_ == "||" && st == ANDS && st2 == GOVALUATE)
    requires Linked(toks) && GapsWf(toks, gaps) && toks[0] != k
    ensures ReplaceAll(Spell(st, toks, gaps), " " + word + " ", " " + new_ + " ") == Spell(st2, toks, gaps)
  {
    var r := s => ReplaceAll(s, " " + word + " ", " " + new_ + " ");
    var skip: Skipper := (a, b) => forall i | 0 <= i < |a| :: !OccursAt(a + b, " " + word + " ", i);
    WordSteps(r, skip, word, new_);
    WordRespells(r, skip, k, word, new_, st, st2);
    WordFinds(r, skip, k, word, new_, st);
    SpellRespelled(r, skip, k, st, st2, toks, gaps);
  }

  lemma AndsRespelled(toks: seq<Tok>, gaps: seq<nat>)
    requires Whole(toks) && GapsWf(toks, gaps)
    ensures ReplaceAll(Spell(EQUALS, toks, gaps), " and ", " && ") == Spell(ANDS, toks, gaps)
  {
    assert " and " == " " + "and" + " " && " && " == " " + "&&" + " ";
    WordRespelled(AndTok, "and", "&&", EQUALS, ANDS, toks, gaps);
  }

  lemma OrsRespelled(toks: seq<Tok>, gaps: seq<nat>)
    requires Whole(toks) && GapsWf(toks, gaps)
    ensures ReplaceAll(Spell(ANDS, toks, gaps), " or ", " || ") == Spell(GOVALUATE, toks, gaps)
  {
    assert " or " == " " + "or" + " " && " || " == " " + "||" + " ";
    WordRespelled(OrTok, "or", "||", ANDS, GOVALUATE, toks, gaps);
  }

  lemma Chain(a: string, b: string, c: string, d: string)
    requires ReplaceEquals(a) == b && ReplaceAll(b, " and ", " && ") == c && ReplaceAll(c, " or ", " || ") == d
    ensures ProcessFilterCondition(a) == d
  {
  }

  /** The three steps together. */
  lemma FilterRespells(toks: seq<Tok>, gaps: seq<nat>)
    requires Whole(toks) && GapsWf(toks, gaps)
    ensures ProcessFilterCondition(Spell(FEEL, toks, gaps)) == Spell(GOVALUATE, toks, gaps)
  {
    EqualsRespelled(toks, gaps);
    AndsRespelled(toks, gaps);
    OrsRespelled(toks, gaps);
    Chain(Spell(FEEL, toks, gaps), Spell(EQUALS, toks, gaps), Spell(ANDS, toks, gaps), Spell(GOVALUATE, toks, gaps));
  }
}
