/** What each rewriting step does to the text of a condition: it changes the spelling
    of one kind of token and leaves everything else as it is. */
module Rewriting {
  import opened Sequences
  import opened GoStrings
  import opened Condition
  import opened Feel

  // ------------------------------------------------------ stepping over text

  /** No occurrence of `sub` in `a + b` starts in `a`. */
  ghost predicate Skips(a: string, b: string, sub: string) {
    forall i | 0 <= i < |a| :: !OccursAt(a + b, sub, i)
  }

  lemma IndexSkips(a: string, b: string, sub: string)
    requires sub != "" && Skips(a, b, sub)
    ensures Index(a + b, sub) == if Index(b, sub) < 0 then -1 else |a| + Index(b, sub)
  {
    forall i | 0 <= i ensures OccursAt(a + b, sub, |a| + i) <==> OccursAt(b, sub, i) {
      assert |a| + i + |sub| <= |a + b| ==> (a + b)[|a| + i..|a| + i + |sub|] == b[i..i + |sub|];
    }
    var k, n := Index(a + b, sub), Index(b, sub);
    assert n >= 0 ==> OccursAt(a + b, sub, |a| + n);
    assert k >= |a| ==> OccursAt(b, sub, k - |a|);
  }

  lemma ReplaceTwo(a: string, b: string, sub: string, new_: string, c: string)
    requires sub != "" && Index(b + sub + c, sub) == |b| && Index((a + b) + sub + c, sub) == |a + b|
    ensures ReplaceAll((a + b) + sub + c, sub, new_) == a + ReplaceAll(b + sub + c, sub, new_)
  {
    ReplaceFirst(a + b, sub, new_, c);
    ReplaceFirst(b, sub, new_, c);
    Regroup(a, b, new_, ReplaceAll(c, sub, new_));
  }

  lemma ReplaceNone(s: string, sub: string, new_: string)
    requires sub != "" && Index(s, sub) < 0
    ensures ReplaceAll(s, sub, new_) == s
  {
  }

  /** A text taken apart around the first occurrence in it. */
  lemma AtFirst(s: string, sub: string) returns (before: string, after: string)
    requires sub != "" && Index(s, sub) >= 0
    ensures s == before + sub + after && |before| == Index(s, sub)
  {
    before, after := s[..Index(s, sub)], s[Index(s, sub) + |sub|..];
  }

  lemma ReplaceSkips(a: string, b: string, sub: string, new_: string)
    requires sub != "" && Skips(a, b, sub)
    ensures ReplaceAll(a + b, sub, new_) == a + ReplaceAll(b, sub, new_)
  {
    IndexSkips(a, b, sub);
    if Index(b, sub) < 0 {
      ReplaceNone(b, sub, new_);
      ReplaceNone(a + b, sub, new_);
    } else {
      var before, after := AtFirst(b, sub);
      Regroup(a, before, sub, after);
      ReplaceTwo(a, before, sub, new_, after);
    }
  }

  lemma ReplaceHere(b: string, sub: string, new_: string)
    requires sub != ""
    ensures ReplaceAll(sub + b, sub, new_) == new_ + ReplaceAll(b, sub, new_)
  {
    assert (sub + b)[0..|sub|] == sub;
    assert OccursAt(sub + b, sub, 0);
    assert "" + sub + b == sub + b;
    ReplaceFirst("", sub, new_, b);
    assert "" + new_ == new_;
  }

  /** Text without the first character of `sub`. */
  lemma SkipsForeign(a: string, b: string, sub: string)
    requires sub != "" && forall i | 0 <= i < |a| :: a[i] != sub[0]
    ensures Skips(a, b, sub)
  {
    forall i | 0 <= i < |a| ensures !OccursAt(a + b, sub, i) {
      NoOccurrence(a + b, sub, i, 0);
    }
  }

  /** A quoted text that does not contain `sub`. */
  lemma SkipsQuoted(t: string, b: string, sub: string)
    requires sub != "" && !Contains(t, sub) && (forall i | 0 <= i < |sub| :: sub[i] != '"')
    ensures Skips("\"" + t + "\"", b, sub)
  {
    var q := "\"" + t + "\"";
    var s := q + b;
    forall i | 0 <= i < |q| ensures !OccursAt(s, sub, i) {
      if i == 0 || i == |q| - 1 {
        NoOccurrence(s, sub, i, 0);
      } else if i + |sub| <= |t| + 1 {
        assert !OccursAt(t, sub, i - 1);
        assert s[i..i + |sub|] == t[i - 1..i - 1 + |sub|];
      } else {
        NoOccurrence(s, sub, i, |t| + 1 - i);
      }
    }
  }

  // ------------------------------------------------ first step: == to space = space

  function Lead(toks: seq<Tok>): string {
    if toks != [] && toks[0] == Comp(Eq) then " " else ""
  }

  lemma WordNotEmpty(st: Style, t: Tok)
    requires TokWf(t) && st.eq != "" && st.and_ != "" && st.or_ != ""
    ensures Word(st, t) != ""
  {
  }

  lemma SpellStart(st: Style, toks: seq<Tok>, gaps: seq<nat>)
    requires |toks| == |gaps| && toks != []
    ensures Word(st, toks[0]) <= Spell(st, toks, gaps)
  {
  }

  lemma NoEqualsWord(t: Tok, b: string)
    requires TokWf(t) && t != Comp(Eq) && (t.Comp? ==> b != "" && b[0] != '=')
    ensures Skips(Word(ALFA, t), b, "==")
  {
    var w := Word(ALFA, t);
    match t
    case Comp(_) =>
      forall i | 0 <= i < |w| ensures !OccursAt(w + b, "==", i) {
        if i == |w| - 1 {
          assert (w + b)[i + 1] == b[0];
          NoOccurrence(w + b, "==", i, 1);
        } else {
          NoOccurrence(w + b, "==", i, 0);
        }
      }
    case Value(l) =>
      if l.Quoted? {
        SkipsQuoted(l.text, b, "==");
      } else {
        SkipsForeign(w, b, "==");
      }
    case _ => SkipsForeign(w, b, "==");
  }

  lemma AfterComparison(gap: nat, toks: seq<Tok>, gaps: seq<nat>)
    requires |toks| == |gaps| && toks != [] && toks[0].Value? && TokWf(toks[0])
    ensures var b := Sp(gap) + Spell(ALFA, toks, gaps); b != "" && b[0] != '='
  {
    SpellStart(ALFA, toks, gaps);
    WordNotEmpty(ALFA, toks[0]);
    if gap == 0 {
      assert Sp(gap) + Spell(ALFA, toks, gaps) == Spell(ALFA, toks, gaps);
      assert Spell(ALFA, toks, gaps)[0] == Word(ALFA, toks[0])[0];
    }
  }

  lemma SpreadWord(w: string, gap: string, rest: string, lead: string, more: string)
    requires Skips(w, gap + rest, "==") && Skips(gap, rest, "==")
    requires ReplaceAll(rest, "==", " = ") == lead + more
    ensures ReplaceAll(w + (gap + rest), "==", " = ") == w + ((gap + lead) + more)
  {
    ReplaceSkips(gap, rest, "==", " = ");
    ReplaceSkips(w, gap + rest, "==", " = ");
    assert w + (gap + (lead + more)) == w + ((gap + lead) + more);
  }

  lemma SpreadEquals(gap: string, rest: string, more: string)
    requires Skips(gap, rest, "==") && ReplaceAll(rest, "==", " = ") == more
    ensures ReplaceAll("==" + (gap + rest), "==", " = ") == " " + ("=" + ((" " + gap) + more))
  {
    ReplaceSkips(gap, rest, "==", " = ");
    ReplaceHere(gap + rest, "==", " = ");
    assert " = " + (gap + more) == " " + ("=" + ((" " + gap) + more));
  }

  /** The first step puts blanks around `=` and changes nothing else. */
  lemma {:induction false} EqualsSpread(toks: seq<Tok>, gaps: seq<nat>)
    requires Linked(toks) && |gaps| == |toks|
    ensures ReplaceAll(Spell(ALFA, toks, gaps), "==", " = ") == Lead(toks) + Spell(SPREAD, toks, gaps)
    decreases |toks|
  {
    var w := Word(ALFA, toks[0]);
    if |toks| == 1 {
      NoEqualsWord(toks[0], "");
      assert w + "" == w;
      ReplaceSkips(w, "", "==", " = ");
      assert ReplaceAll("", "==", " = ") == "";
    } else {
      LinkedTail(toks);
      EqualsSpread(toks[1..], gaps[1..]);
      SpreadStep(toks, gaps);
    }
  }

  lemma SpreadStep(toks: seq<Tok>, gaps: seq<nat>)
    requires |toks| > 1 && |gaps| == |toks| && TokWf(toks[0]) && TokWf(toks[1]) && Follows(toks[0], toks[1])
    requires ReplaceAll(Spell(ALFA, toks[1..], gaps[1..]), "==", " = ")
        == Lead(toks[1..]) + Spell(SPREAD, toks[1..], gaps[1..])
    ensures ReplaceAll(Spell(ALFA, toks, gaps), "==", " = ") == Lead(toks) + Spell(SPREAD, toks, gaps)
  {
    var w := Word(ALFA, toks[0]);
    var rest, more := Spell(ALFA, toks[1..], gaps[1..]), Spell(SPREAD, toks[1..], gaps[1..]);
    var gap := Sp(gaps[0]);
    SkipsForeign(gap, rest, "==");
    if toks[0].Comp? {
      AfterComparison(gaps[0], toks[1..], gaps[1..]);
    }
    if toks[0] == Comp(Eq) {
      assert "" + more == more;
      SpreadEquals(gap, rest, more);
      assert Sp(gaps[0] + 1) == " " + gap;
    } else {
      NoEqualsWord(toks[0], gap + rest);
      SpreadWord(w, gap, rest, Lead(toks[1..]), more);
      assert Sp(gaps[0] + Wider(toks[0], toks[1])) == gap + Lead(toks[1..]);
      assert "" + Spell(SPREAD, toks, gaps) == Spell(SPREAD, toks, gaps);
    }
  }

  // ------------------------------------------------------ second step: squeezing

  lemma {:induction false} SqueezeOver(w: string, b: string)
    requires w != "" && !Contains(w, DOUBLE) && w[|w| - 1] != ' '
    ensures Squeeze(w + b) == w + Squeeze(b)
    decreases |w|
  {
    assert (w + b)[1..] == w[1..] + b;
    if |w| == 1 {
      assert w[1..] == "";
      assert w[1..] + b == b;
    } else {
      assert !OccursAt(w, DOUBLE, 0);
      assert w[0..2] == [w[0], w[1]];
      forall i ensures !OccursAt(w[1..], DOUBLE, i) {
        assert !OccursAt(w, DOUBLE, i + 1);
        assert 0 <= i <= |w| - 3 ==> w[1..][i..i + 2] == w[i + 1..i + 3];
      }
      SqueezeOver(w[1..], b);
    }
  }

  lemma {:induction false} SqueezeBlanks(n: nat, b: string)
    requires b != "" && b[0] != ' '
    ensures Squeeze(Sp(n) + b) == (if n > 0 then " " else "") + Squeeze(b)
  {
    if n == 0 {
      assert Sp(n) + b == b;
    } else {
      assert (Sp(n) + b)[1..] == Sp(n - 1) + b;
      SqueezeBlanks(n - 1, b);
      if n == 1 {
        assert Sp(0) + b == b;
        assert (Sp(n) + b)[1] == b[0];
      }
    }
  }

  lemma WordTight(st: Style, t: Tok)
    requires TokWf(t) && st == SPREAD
    ensures var w := Word(st, t); w != "" && !Contains(w, DOUBLE) && w[0] != ' ' && w[|w| - 1] != ' '
  {
    var w := Word(st, t);
    match t
    case Value(l) =>
      if l.Quoted? {
        SkipsQuoted(l.text, "", DOUBLE);
        assert w + "" == w;
        forall i ensures !OccursAt(w, DOUBLE, i) {
          assert 0 <= i < |w| ==> !OccursAt(w + "", DOUBLE, i);
        }
      } else {
        ForeignFirst(w, DOUBLE);
      }
    case _ => ForeignFirst(w, DOUBLE);
  }

  /** Squeezing leaves exactly one blank wherever there were any. */
  lemma {:induction false} SpellSqueezed(toks: seq<Tok>, gaps: seq<nat>)
    requires Linked(toks) && |gaps| == |toks|
    ensures Squeeze(Spell(SPREAD, toks, gaps)) == Spell(FEEL, toks, gaps)
    decreases |toks|
  {
    var w := Word(SPREAD, toks[0]);
    WordTight(SPREAD, toks[0]);
    if |toks| == 1 {
      SqueezeOver(w, "");
      assert w + "" == w && Squeeze("") == "";
    } else {
      LinkedTail(toks);
      WordTight(SPREAD, toks[1]);
      SpellStart(SPREAD, toks[1..], gaps[1..]);
      SpellSqueezed(toks[1..], gaps[1..]);
      var rest := Spell(SPREAD, toks[1..], gaps[1..]);
      assert rest[0] == Word(SPREAD, toks[1])[0];
      SqueezeBlanks(gaps[0] + Wider(toks[0], toks[1]), rest);
      SqueezeOver(w, Sp(gaps[0] + Wider(toks[0], toks[1])) + rest);
    }
  }
}
