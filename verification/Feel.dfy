/** Access conditions as text: from ALFA to FEEL, into the `{accessPolicy: ...}`
    context of the generated handler, out of it again, and into the operators of the
    expression evaluator. */
module Feel {
  import opened Wrappers
  import opened GoStrings

  const DOUBLE: string := "  "

  /** Every run of blanks becomes one blank. */
  function Squeeze(s: string): string {
    if s == "" then ""
    else if s[0] == ' ' && |s| > 1 && s[1] == ' ' then Squeeze(s[1..])
    else [s[0]] + Squeeze(s[1..])
  }

  function WithoutSemicolon(condition: string): string {
    TrimSuffix(TrimSpace(condition), ";")
  }

  function Wrap(cond: string): string {
    if (Contains(cond, " and ") || Contains(cond, " or ")) && !(HasPrefix(cond, "(") && HasSuffix(cond, ")"))
    then "(" + cond + ")" else cond
  }

  function ToFeel(condition: string): string {
    Wrap(TrimSpace(Squeeze(ReplaceAll(WithoutSemicolon(condition), "==", " = "))))
  }

  method TranslateConditionToFEEL(condition: string) returns (r: string)
    ensures r == ToFeel(condition)
  {
    var cond := TrimSpace(condition);
    cond := TrimSuffix(cond, ";");
    cond := ReplaceAll(cond, "==", " = ");
    ghost var spread := cond;
    while Contains(cond, DOUBLE)
      invariant Squeeze(cond) == Squeeze(spread)
      decreases |cond|
    {
      ReplaceShrinks(cond);
      SqueezeReplaced(cond);
      cond := ReplaceAll(cond, DOUBLE, " ");
    }
    NothingToSqueeze(cond);
    cond := TrimSpace(cond);
    r := Wrap(cond);
  }

  lemma {:induction false} ReplaceNoLonger(s: string)
    ensures |ReplaceAll(s, DOUBLE, " ")| <= |s|
    decreases |s|
  {
    var i := Index(s, DOUBLE);
    if i >= 0 {
      ReplaceNoLonger(s[i + 2..]);
    }
  }

  lemma ReplaceShrinks(s: string)
    requires Contains(s, DOUBLE)
    ensures |ReplaceAll(s, DOUBLE, " ")| < |s|
  {
    ReplaceNoLonger(s[Index(s, DOUBLE) + 2..]);
  }

  lemma SqueezeFirst(s: string)
    requires s != ""
    ensures Squeeze(s) != "" && Squeeze(s)[0] == s[0]
  {
  }

  lemma {:induction false} SqueezeAlike(a: string, x: string, y: string)
    requires Squeeze(x) == Squeeze(y)
    ensures Squeeze(a + x) == Squeeze(a + y)
  {
    if a == "" {
      assert a + x == x && a + y == y;
    } else {
      SqueezeAlike(a[1..], x, y);
      assert (a + x)[1..] == a[1..] + x && (a + y)[1..] == a[1..] + y;
      if x != "" { SqueezeFirst(x); }
      if y != "" { SqueezeFirst(y); }
    }
  }

  lemma SqueezeOne(a: string, b: string, more: string)
    requires Squeeze(more) == Squeeze(b)
    ensures Squeeze(a + " " + more) == Squeeze(a + DOUBLE + b)
  {
    SqueezeAlike(" ", more, b);
    assert (DOUBLE + b)[1..] == " " + b;
    SqueezeAlike(a, " " + more, DOUBLE + b);
    assert a + DOUBLE + b == a + (DOUBLE + b);
    assert a + " " + more == a + (" " + more);
  }

  lemma {:induction false} SqueezeReplaced(s: string)
    ensures Squeeze(ReplaceAll(s, DOUBLE, " ")) == Squeeze(s)
    decreases |s|
  {
    var i := Index(s, DOUBLE);
    if i >= 0 {
      SqueezeReplaced(s[i + 2..]);
      SqueezeOne(s[..i], s[i + 2..], ReplaceAll(s[i + 2..], DOUBLE, " "));
      assert s == s[..i] + DOUBLE + s[i + 2..];
    }
  }

  lemma {:induction false} NothingToSqueeze(s: string)
    requires !Contains(s, DOUBLE)
    ensures Squeeze(s) == s
  {
    if s != "" {
      forall i ensures !OccursAt(s[1..], DOUBLE, i) {
        assert !OccursAt(s, DOUBLE, i + 1);
        assert 0 <= i <= |s| - 3 ==> s[1..][i..i + 2] == s[i + 1..i + 3];
      }
      NothingToSqueeze(s[1..]);
      assert !OccursAt(s, DOUBLE, 0);
      if |s| > 1 {
        assert s[0..2] == [s[0], s[1]];
      }
    }
  }

  // ---------------------------------------------------------------- context

  /** The text in front of the last closing brace on the first line of `s`. */
  function ToLastBrace(s: string, n: nat): Option<string>
    requires n <= |s|
  {
    if n < 2 then None else if s[n - 1] == '}' then Some(s[..n - 1]) else ToLastBrace(s, n - 1)
  }

  function FirstLine(s: string): (n: nat)
    ensures n <= |s|
  {
    if s == "" || s[0] == '\n' then 0 else 1 + FirstLine(s[1..])
  }

  /** The expression's `\s*(.+)\}` on `s`, with at most `k` blanks skipped: as many as
      possible first. */
  function Capture(s: string, k: nat): Option<string>
    requires k <= |s|
  {
    var m := ToLastBrace(s[k..], FirstLine(s[k..]));
    if m.Some? || k == 0 then m else Capture(s, k - 1)
  }

  function Blanks(s: string): (n: nat)
    ensures n <= |s|
  {
    if s == "" || s[0] !in SPACES then 0 else 1 + Blanks(s[1..])
  }

  /** The match that starts at the brace at `i`: a key without colon that is not empty,
      a colon, blanks, the value. */
  function MatchAt(s: string, i: nat): Option<string>
    requires i < |s|
  {
    var colon := Index(s[i + 1..], ":");
    if s[i] != '{' || colon <= 0 then None
    else
      var rest := s[i + 1 + colon + 1..];
      Capture(rest, Blanks(rest))
  }

  /** The leftmost match. */
  function FindMatch(s: string, i: nat): Option<string>
    requires i <= |s|
    decreases |s| - i
  {
    if i == |s| then None
    else
      var m := MatchAt(s, i);
      if m.Some? then m else FindMatch(s, i + 1)
  }

  function ReplaceEquals(s: string): string {
    if |s| < 3 then s
    else if s[0] in SPACES && s[1] == '=' && s[2] in SPACES then " == " + ReplaceEquals(s[3..])
    else [s[0]] + ReplaceEquals(s[1..])
  }

  function ProcessFilterCondition(s: string): string {
    ReplaceAll(ReplaceAll(ReplaceEquals(s), " and ", " && "), " or ", " || ")
  }

  function ParseFEELContext(input: string): Option<string> {
    match FindMatch(input, 0)
    case None => None
    case Some(v) => Some(ProcessFilterCondition(TrimSpace(v)))
  }

  const CONTEXT: string := "{accessPolicy:"

  /** What the generated handler passes on. */
  function InContext(condition: string): string {
    CONTEXT + (" " + condition + "}")
  }

  lemma {:induction false} OneLine(s: string)
    requires '\n' !in s
    ensures FirstLine(s) == |s|
  {
    if s != "" {
      assert s[0] in s;
      assert forall c | c in s[1..] :: c in s;
      OneLine(s[1..]);
    }
  }

  /** Extracting the condition from its context gives it back, whatever braces and
      colons it contains. */
  lemma ContextGivesBack(condition: string)
    requires condition != "" && '\n' !in condition && condition[0] !in SPACES && condition[|condition| - 1] !in SPACES
    ensures ParseFEELContext(InContext(condition)) == Some(ProcessFilterCondition(condition))
  {
    var s, rest := InContext(condition), " " + condition + "}";
    assert s[1..] == "accessPolicy" + ":" + rest;
    assert ':' !in "accessPolicy";
    FirstForeign("accessPolicy", ":", rest);
    assert s[1 + 12 + 1..] == rest;
    CaptureAfterBlank(condition);
    assert s[0] == '{';
    assert MatchAt(s, 0) == Some(condition);
    TrimNothing(condition, SPACES);
  }

  lemma CaptureAfterBlank(condition: string)
    requires condition != "" && '\n' !in condition && condition[0] !in SPACES
    ensures var rest := " " + condition + "}"; Capture(rest, Blanks(rest)) == Some(condition)
  {
    var rest, tail := " " + condition + "}", condition + "}";
    assert rest[1..] == tail && tail[0] == condition[0];
    assert Blanks(tail) == 0;
    assert rest[0] == ' ' && ' ' in SPACES;
    assert Blanks(rest) == 1;
    OneLine(tail);
    assert tail[..|tail| - 1] == condition;
  }
}
