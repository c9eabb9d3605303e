/** Access control end to end: the condition written in the ALFA file decides, whatever
    rewriting its text goes through on the way to the evaluator. */
module Access {
  import opened Wrappers
  import opened Sequences
  import opened GoStrings
  import opened Identifiers
  import opened Condition
  import opened Feel
  import opened Rewriting
  import opened Respelling
  import opened Govaluate

  /** None: the empty expression has no truth value and the check panics. Every error
      of the evaluator denies access. */
  function CheckCallability(policy: string, env: Attributes): Option<bool> {
    match ParseFEELContext(policy)
    case None => None
    case Some(text) =>
      if text == "" then None
      else
        match Read(text)
        case None => Some(false)
        case Some(c) => Some(CondHolds(c, env) == Some(true))
  }

  // ------------------------------------------------------- the ends of a text

  predicate Rewritten(st: Style) {
    st == ALFA || st == SPREAD || st == FEEL
  }

  predicate Solid(s: string) {
    s != "" && s[0] !in SPACES && s[|s| - 1] !in SPACES && s[|s| - 1] != ';'
  }

  lemma WordSolid(st: Style, t: Tok)
    requires TokWf(t) && Rewritten(st)
    ensures Solid(Word(st, t))
  {
    var w := Word(st, t);
    if t.Value? && t.lit.Number? {
      assert NumberChar(w[|w| - 1]) && NumberChar(w[0]);
    }
    if t.Name? {
      assert IdentChar(w[|w| - 1]) && IdentChar(w[0]);
    }
  }

  lemma {:induction false} SpellSolid(st: Style, toks: seq<Tok>, gaps: seq<nat>)
    requires Linked(toks) && |gaps| == |toks| && Rewritten(st)
    ensures Solid(Spell(st, toks, gaps))
    decreases |toks|
  {
    WordSolid(st, toks[0]);
    if |toks| > 1 {
      LinkedTail(toks);
      SpellSolid(st, toks[1..], gaps[1..]);
      var s, rest := Spell(st, toks, gaps), Spell(st, toks[1..], gaps[1..]);
      assert s[|s| - 1] == rest[|rest| - 1];
    }
  }

  predicate OneLined(s: string) {
    forall i | 0 <= i < |s| :: s[i] != '\n'
  }

  lemma WordOneLined(st: Style, t: Tok)
    requires TokWf(t) && Rewritten(st)
    ensures OneLined(Word(st, t))
  {
    if t.Value? && t.lit.Quoted? {
      var w, q := Word(st, t), t.lit.text;
      forall i | 0 <= i < |w| ensures w[i] != '\n' {
        assert 0 < i <= |q| ==> w[i] == q[i - 1];
      }
    }
  }

  lemma {:induction false} SpellOneLined(st: Style, toks: seq<Tok>, gaps: seq<nat>)
    requires Linked(toks) && |gaps| == |toks| && Rewritten(st)
    ensures OneLined(Spell(st, toks, gaps))
    decreases |toks|
  {
    WordOneLined(st, toks[0]);
    if |toks| > 1 {
      LinkedTail(toks);
      SpellOneLined(st, toks[1..], gaps[1..]);
    }
  }

  // ---------------------------------------------------------------- wrapping

  /** Gaps for the tokens between parentheses. */
  function WrapGaps(gaps: seq<nat>): seq<nat>
    requires gaps != []
  {
    [0] + gaps[..|gaps| - 1] + [0, 0]
  }

  lemma {:induction false} SpellClosed(st: Style, toks: seq<Tok>, gaps: seq<nat>)
    requires st.layout == Narrow && Linked(toks) && |gaps| == |toks|
    ensures Spell(st, toks + [Close], gaps[..|gaps| - 1] + [0, 0]) == Spell(st, toks, gaps) + ")"
    decreases |toks|
  {
    var all, more := toks + [Close], gaps[..|gaps| - 1] + [0, 0];
    SpellStep(st, all, more);
    assert all[1..] == toks[1..] + [Close];
    if |toks| == 1 {
      assert all[1..] == [Close];
      assert Spell(st, all[1..], more[1..]) == ")";
      assert Sep(Narrow, all[0], all[1], more[0]) == "";
      assert "" + ")" == ")";
    } else {
      LinkedTail(toks);
      SpellStep(st, toks, gaps);
      SpellClosed(st, toks[1..], gaps[1..]);
      assert more[1..] == gaps[1..][..|gaps[1..]| - 1] + [0, 0];
      Regroup(Word(st, toks[0]), Sep(Narrow, toks[0], toks[1], gaps[0]), Spell(st, toks[1..], gaps[1..]), ")");
    }
  }

  lemma SpellWrapped(st: Style, toks: seq<Tok>, gaps: seq<nat>)
    requires st.layout == Narrow && Whole(toks) && GapsWf(toks, gaps)
    ensures var all := [Open] + toks + [Close];
            GapsWf(all, WrapGaps(gaps)) && Spell(st, all, WrapGaps(gaps)) == "(" + Spell(st, toks, gaps) + ")"
  {
    var all, more := [Open] + toks + [Close], WrapGaps(gaps);
    SpellClosed(st, toks, gaps);
    SpellStep(st, all, more);
    assert all[1..] == toks + [Close] && more[1..] == gaps[..|gaps| - 1] + [0, 0];
    assert Sep(Narrow, all[0], all[1], more[0]) == "";
    assert "(" + ("" + (Spell(st, toks, gaps) + ")")) == "(" + Spell(st, toks, gaps) + ")";
    forall i | 0 <= i < |all| - 1 ensures GapWf(all, more, i) {
      if 0 < i < |toks| {
        assert GapWf(toks, gaps, i - 1);
      }
    }
  }

  /** A condition as it leaves the wrapping step. */
  function Wrapped(c: Cond, wrapped: bool): Cond {
    if wrapped then Only(Single(Nested(c))) else c
  }

  lemma WrapIs(s: string)
    ensures Wrap(s) == s || Wrap(s) == "(" + s + ")"
  {
  }

  lemma WrapSpells(c: Cond, gaps: seq<nat>) returns (wrapped: bool, more: seq<nat>)
    requires CondWf(c) && GapsWf(CondToks(c), gaps)
    ensures GapsWf(CondToks(Wrapped(c, wrapped)), more)
    ensures Wrap(Spell(FEEL, CondToks(c), gaps)) == Spell(FEEL, CondToks(Wrapped(c, wrapped)), more)
  {
    CondWhole(c);
    var cond := Spell(FEEL, CondToks(c), gaps);
    WrapIs(cond);
    wrapped := Wrap(cond) != cond;
    more := if wrapped then WrapGaps(gaps) else gaps;
    if wrapped {
      SpellWrapped(FEEL, CondToks(c), gaps);
      NestedToks(c);
    }
  }

  lemma NestedToks(c: Cond)
    ensures CondToks(Wrapped(c, true)) == [Open] + CondToks(c) + [Close]
  {
    assert CondToks(Only(Single(Nested(c)))) == ConjToks(Single(Nested(c)));
    assert ConjToks(Single(Nested(c))) == PrimToks(Nested(c));
  }

  // --------------------------------------------------------------- main result

  function Semicolon(semi: bool): string {
    if semi then ";" else ""
  }

  lemma AlfaStripped(s: string, before: string, semi: bool, after: string)
    requires Solid(s) && AllIn(before, SPACES) && AllIn(after, SPACES)
    ensures WithoutSemicolon(before + (s + Semicolon(semi)) + after) == s
  {
    var t := s + Semicolon(semi);
    assert ';' !in SPACES;
    TrimPadded(before, t, after, SPACES);
    if semi {
      IsSuffix(s, ";");
    } else {
      assert t == s;
      NoOccurrence(s, ";", |s| - 1, 0);
    }
  }

  /** The FEEL text of a condition. */
  lemma FeelOf(c: Cond, gaps: seq<nat>, before: string, semi: bool, after: string)
    requires CondWf(c) && GapsWf(CondToks(c), gaps) && AllIn(before, SPACES) && AllIn(after, SPACES)
    ensures ToFeel(before + (Spell(ALFA, CondToks(c), gaps) + Semicolon(semi)) + after)
         == Wrap(Spell(FEEL, CondToks(c), gaps))
  {
    var toks := CondToks(c);
    CondWhole(c);
    SpellSolid(ALFA, toks, gaps);
    AlfaStripped(Spell(ALFA, toks, gaps), before, semi, after);
    EqualsSpread(toks, gaps);
    assert "" + Spell(SPREAD, toks, gaps) == Spell(SPREAD, toks, gaps);
    SpellSqueezed(toks, gaps);
    SpellSolid(FEEL, toks, gaps);
    TrimNothing(Spell(FEEL, toks, gaps), SPACES);
    FeelChain(before + (Spell(ALFA, toks, gaps) + Semicolon(semi)) + after, Spell(ALFA, toks, gaps),
              Spell(SPREAD, toks, gaps), Spell(FEEL, toks, gaps));
  }

  lemma FeelChain(raw: string, a: string, b: string, f: string)
    requires WithoutSemicolon(raw) == a && ReplaceAll(a, "==", " = ") == b && Squeeze(b) == f && TrimSpace(f) == f
    ensures ToFeel(raw) == Wrap(f)
  {
  }

  /** A condition in FEEL, put into its context and taken out, is read as that condition. */
  lemma FeelReads(c: Cond, gaps: seq<nat>, env: Attributes)
    requires CondWf(c) && GapsWf(CondToks(c), gaps)
    ensures CheckCallability(InContext(Spell(FEEL, CondToks(c), gaps)), env) == Some(CondHolds(c, env) == Some(true))
  {
    var toks := CondToks(c);
    CondWhole(c);
    SpellSolid(FEEL, toks, gaps);
    SpellOneLined(FEEL, toks, gaps);
    ContextGivesBack(Spell(FEEL, toks, gaps));
    FilterRespells(toks, gaps);
    SpellReads(c, gaps);
    assert Lex("") == Some([]) && ParseCond([]) == None;
  }

  /** The decision of the generated handler is the meaning of the condition in the
      ALFA file: for every condition, every layout of its text, with or without a
      final semicolon, and for all attributes. */
  lemma AccessPreserved(c: Cond, gaps: seq<nat>, before: string, semi: bool, after: string, env: Attributes)
    requires CondWf(c) && GapsWf(CondToks(c), gaps) && AllIn(before, SPACES) && AllIn(after, SPACES)
    ensures var text := before + (Spell(ALFA, CondToks(c), gaps) + Semicolon(semi)) + after;
            CheckCallability(InContext(ToFeel(text)), env) == Some(CondHolds(c, env) == Some(true))
  {
    FeelOf(c, gaps, before, semi, after);
    var wrapped, more := WrapSpells(c, gaps);
    WrappedWf(c, wrapped);
    FeelReads(Wrapped(c, wrapped), more, env);
  }

  lemma WrappedWf(c: Cond, wrapped: bool)
    requires CondWf(c)
    ensures CondWf(Wrapped(c, wrapped)) && forall env :: CondHolds(Wrapped(c, wrapped), env) == CondHolds(c, env)
  {
    forall env ensures CondHolds(Wrapped(c, wrapped), env) == CondHolds(c, env) {
      assert CondHolds(Only(Single(Nested(c))), env) == ConjHolds(Single(Nested(c)), env);
      assert ConjHolds(Single(Nested(c)), env) == PrimHolds(Nested(c), env);
    }
    assert PrimWf(Nested(c)) && ConjWf(Single(Nested(c)));
  }
}
