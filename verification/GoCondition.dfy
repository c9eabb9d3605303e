/** How Go reads a condition that is a disjunction of conjunctions of clauses,
    a clause being one comparison or a parenthesised disjunction of them. Every
    condition the DMN compiler emits has this shape. */
module GoCondition {
  import opened Wrappers
  import opened Sequences
  import opened GoExpr

  type Test = a: Atom | WellFormed(a) witness When("", Before, Civil(1, 1, 1, 0, 0, 0))

  datatype Clause = One(test: Test) | Alt(first: Test, others: seq<Test>)

  /** A conjunction, never empty. */
  datatype Group = Group(head: Clause, tail: seq<Clause>)

  // ------------------------------------------------------------------ tokens

  function OrTests(tests: seq<Test>): seq<Token> {
    if tests == [] then [] else [OrOr] + (AtomTokens(tests[0]) + OrTests(tests[1..]))
  }

  function ClauseTokens(c: Clause): seq<Token> {
    match c
    case One(a) => AtomTokens(a)
    case Alt(a, others) => [LParen] + (AtomTokens(a) + (OrTests(others) + [RParen]))
  }

  function AndClauses(cs: seq<Clause>): seq<Token> {
    if cs == [] then [] else [AndAnd] + (ClauseTokens(cs[0]) + AndClauses(cs[1..]))
  }

  function GroupTokens(g: Group): seq<Token> {
    ClauseTokens(g.head) + AndClauses(g.tail)
  }

  function OrGroups(gs: seq<Group>): seq<Token> {
    if gs == [] then [] else [OrOr] + (GroupTokens(gs[0]) + OrGroups(gs[1..]))
  }

  function Tokens(gs: seq<Group>): seq<Token>
    requires gs != []
  {
    GroupTokens(gs[0]) + OrGroups(gs[1..])
  }

  // ------------------------------------------------------------- expressions

  function OrFold(acc: Expr, tests: seq<Test>): Expr
    decreases |tests|
  {
    if tests == [] then acc else OrFold(Or(acc, Leaf(tests[0])), tests[1..])
  }

  function ClauseExpr(c: Clause): Expr {
    match c
    case One(a) => Leaf(a)
    case Alt(a, others) => OrFold(Leaf(a), others)
  }

  function AndFold(acc: Expr, cs: seq<Clause>): Expr
    decreases |cs|
  {
    if cs == [] then acc else AndFold(And(acc, ClauseExpr(cs[0])), cs[1..])
  }

  function GroupExpr(g: Group): Expr {
    AndFold(ClauseExpr(g.head), g.tail)
  }

  function GroupsFold(acc: Expr, gs: seq<Group>): Expr
    decreases |gs|
  {
    if gs == [] then acc else GroupsFold(Or(acc, GroupExpr(gs[0])), gs[1..])
  }

  function GroupsExpr(gs: seq<Group>): Expr
    requires gs != []
  {
    GroupsFold(GroupExpr(gs[0]), gs[1..])
  }

  // ----------------------------------------------------------------- parsing

  predicate Ends(rest: seq<Token>) {
    !StartsWith(rest, AndAnd) && !StartsWith(rest, OrOr)
  }

  // Each step of the reader on a text of which it has read the first operand.

  lemma AndStart(ts: seq<Token>, e: Expr, rest: seq<Token>)
    requires ParsePrimary(ts) == Some(Parsed(e, rest))
    ensures ParseAnd(ts) == AndTail(e, rest)
  {
  }

  lemma AndTailStep(acc: Expr, operand: seq<Token>, e: Expr, rest: seq<Token>)
    requires ParsePrimary(operand) == Some(Parsed(e, rest))
    ensures AndTail(acc, [AndAnd] + operand) == AndTail(And(acc, e), rest)
  {
    assert ([AndAnd] + operand)[1..] == operand;
  }

  lemma OrStart(ts: seq<Token>, e: Expr, rest: seq<Token>)
    requires ParseAnd(ts) == Some(Parsed(e, rest))
    ensures ParseOr(ts) == OrTail(e, rest)
  {
  }

  lemma OrTailStep(acc: Expr, operand: seq<Token>, e: Expr, rest: seq<Token>)
    requires ParseAnd(operand) == Some(Parsed(e, rest))
    ensures OrTail(acc, [OrOr] + operand) == OrTail(Or(acc, e), rest)
  {
    assert ([OrOr] + operand)[1..] == operand;
  }

  lemma AndTailEnds(acc: Expr, rest: seq<Token>)
    requires !StartsWith(rest, AndAnd)
    ensures AndTail(acc, rest) == Some(Parsed(acc, rest))
  {
  }

  lemma TestParses(a: Test, rest: seq<Token>)
    ensures ParsePrimary(AtomTokens(a) + rest) == Some(Parsed(Leaf(a), rest))
  {
    assert (AtomTokens(a) + rest)[|AtomTokens(a)|..] == rest;
  }

  lemma {:induction false} TestsParse(acc: Expr, tests: seq<Test>, rest: seq<Token>)
    requires Ends(rest)
    ensures OrTail(acc, OrTests(tests) + rest) == Some(Parsed(OrFold(acc, tests), rest))
    decreases |tests|
  {
    if tests == [] {
      assert OrTests(tests) + rest == rest;
    } else {
      var more := OrTests(tests[1..]);
      assert OrTests(tests) == [OrOr] + (AtomTokens(tests[0]) + more);
      Regroup([OrOr], AtomTokens(tests[0]), more, rest);
      LeafParses(tests[0], more + rest);
      OrTailStep(acc, AtomTokens(tests[0]) + (more + rest), Leaf(tests[0]), more + rest);
      TestsParse(Or(acc, Leaf(tests[0])), tests[1..], rest);
    }
  }

  lemma LeafParses(a: Test, rest: seq<Token>)
    requires !StartsWith(rest, AndAnd)
    ensures ParseAnd(AtomTokens(a) + rest) == Some(Parsed(Leaf(a), rest))
  {
    TestParses(a, rest);
    AndStart(AtomTokens(a) + rest, Leaf(a), rest);
    AndTailEnds(Leaf(a), rest);
  }

  lemma ClauseParses(c: Clause, rest: seq<Token>)
    ensures ParsePrimary(ClauseTokens(c) + rest) == Some(Parsed(ClauseExpr(c), rest))
  {
    match c {
      case One(a) =>
        TestParses(a, rest);
      case Alt(a, others) =>
        var close := [RParen] + rest;
        var after := OrTests(others) + close;
        var operand := AtomTokens(a) + after;
        assert ClauseTokens(c) + rest == [LParen] + operand;
        TestParses(a, after);
        assert !StartsWith(after, AndAnd);
        assert ParseAnd(operand) == Some(Parsed(Leaf(a), after));
        TestsParse(Leaf(a), others, close);
        assert close[1..] == rest;
        assert ([LParen] + operand)[1..] == operand;
    }
  }

  lemma {:induction false} ClausesParse(acc: Expr, cs: seq<Clause>, rest: seq<Token>)
    requires !StartsWith(rest, AndAnd)
    ensures AndTail(acc, AndClauses(cs) + rest) == Some(Parsed(AndFold(acc, cs), rest))
    decreases |cs|
  {
    if cs == [] {
      assert AndClauses(cs) + rest == rest;
    } else {
      var more := AndClauses(cs[1..]);
      assert AndClauses(cs) == [AndAnd] + (ClauseTokens(cs[0]) + more);
      Regroup([AndAnd], ClauseTokens(cs[0]), more, rest);
      ClauseParses(cs[0], more + rest);
      AndTailStep(acc, ClauseTokens(cs[0]) + (more + rest), ClauseExpr(cs[0]), more + rest);
      ClausesParse(And(acc, ClauseExpr(cs[0])), cs[1..], rest);
    }
  }

  lemma GroupParses(g: Group, rest: seq<Token>)
    requires !StartsWith(rest, AndAnd)
    ensures ParseAnd(GroupTokens(g) + rest) == Some(Parsed(GroupExpr(g), rest))
  {
    var after := AndClauses(g.tail) + rest;
    Associate(ClauseTokens(g.head), AndClauses(g.tail), rest);
    ClauseParses(g.head, after);
    AndStart(ClauseTokens(g.head) + after, ClauseExpr(g.head), after);
    ClausesParse(ClauseExpr(g.head), g.tail, rest);
  }

  lemma {:induction false} GroupsParse(acc: Expr, gs: seq<Group>, rest: seq<Token>)
    requires Ends(rest)
    ensures OrTail(acc, OrGroups(gs) + rest) == Some(Parsed(GroupsFold(acc, gs), rest))
    decreases |gs|
  {
    if gs == [] {
      assert OrGroups(gs) + rest == rest;
    } else {
      var more := OrGroups(gs[1..]);
      assert OrGroups(gs) == [OrOr] + (GroupTokens(gs[0]) + more);
      Regroup([OrOr], GroupTokens(gs[0]), more, rest);
      GroupParses(gs[0], more + rest);
      OrTailStep(acc, GroupTokens(gs[0]) + (more + rest), GroupExpr(gs[0]), more + rest);
      GroupsParse(Or(acc, GroupExpr(gs[0])), gs[1..], rest);
    }
  }

  /** Go reads the tokens of a disjunction of conjunctions as exactly that. */
  lemma TokensParse(gs: seq<Group>, rest: seq<Token>)
    requires gs != [] && Ends(rest)
    ensures ParseOr(Tokens(gs) + rest) == Some(Parsed(GroupsExpr(gs), rest))
  {
    var after := OrGroups(gs[1..]) + rest;
    Associate(GroupTokens(gs[0]), OrGroups(gs[1..]), rest);
    GroupParses(gs[0], after);
    OrStart(GroupTokens(gs[0]) + after, GroupExpr(gs[0]), after);
    GroupsParse(GroupExpr(gs[0]), gs[1..], rest);
  }

  // ----------------------------------------------------------------- meaning

  predicate TestTrue(a: Test, inputs: Inputs) {
    EvalAtom(a, inputs) == Some(true)
  }

  /** No type assertion in the test fails. */
  predicate TestSafe(a: Test, inputs: Inputs) {
    EvalAtom(a, inputs).Some?
  }

  predicate SomeTrue(tests: seq<Test>, inputs: Inputs) {
    exists i | 0 <= i < |tests| :: TestTrue(tests[i], inputs)
  }

  predicate ClauseTrue(c: Clause, inputs: Inputs) {
    match c
    case One(a) => TestTrue(a, inputs)
    case Alt(a, others) => TestTrue(a, inputs) || SomeTrue(others, inputs)
  }

  predicate ClauseSafe(c: Clause, inputs: Inputs) {
    match c
    case One(a) => TestSafe(a, inputs)
    case Alt(a, others) => TestSafe(a, inputs) && forall i | 0 <= i < |others| :: TestSafe(others[i], inputs)
  }

  predicate AllTrue(cs: seq<Clause>, inputs: Inputs) {
    forall i | 0 <= i < |cs| :: ClauseTrue(cs[i], inputs)
  }

  predicate AllSafe(cs: seq<Clause>, inputs: Inputs) {
    forall i | 0 <= i < |cs| :: ClauseSafe(cs[i], inputs)
  }

  predicate GroupTrue(g: Group, inputs: Inputs) {
    ClauseTrue(g.head, inputs) && AllTrue(g.tail, inputs)
  }

  predicate GroupSafe(g: Group, inputs: Inputs) {
    ClauseSafe(g.head, inputs) && AllSafe(g.tail, inputs)
  }

  predicate GroupsTrue(gs: seq<Group>, inputs: Inputs) {
    exists i | 0 <= i < |gs| :: GroupTrue(gs[i], inputs)
  }

  predicate GroupsSafe(gs: seq<Group>, inputs: Inputs) {
    forall i | 0 <= i < |gs| :: GroupSafe(gs[i], inputs)
  }

  lemma {:induction false} OrFoldEval(acc: Expr, tests: seq<Test>, inputs: Inputs)
    requires Eval(acc, inputs).Some? && forall i | 0 <= i < |tests| :: TestSafe(tests[i], inputs)
    ensures Eval(OrFold(acc, tests), inputs) == Some(Eval(acc, inputs).value || SomeTrue(tests, inputs))
    decreases |tests|
  {
    if tests != [] {
      var rest := tests[1..];
      assert TestSafe(tests[0], inputs);
      forall i | 0 <= i < |rest| ensures TestSafe(rest[i], inputs) { assert rest[i] == tests[i + 1]; }
      OrFoldEval(Or(acc, Leaf(tests[0])), rest, inputs);
      assert SomeTrue(tests, inputs) <==> TestTrue(tests[0], inputs) || SomeTrue(rest, inputs) by {
        forall i | 0 < i < |tests| ensures tests[i] == rest[i - 1] { }
        assert forall i | 0 <= i < |rest| :: rest[i] == tests[i + 1];
      }
    }
  }

  lemma ClauseEval(c: Clause, inputs: Inputs)
    requires ClauseSafe(c, inputs)
    ensures Eval(ClauseExpr(c), inputs) == Some(ClauseTrue(c, inputs))
  {
    if c.Alt? {
      OrFoldEval(Leaf(c.first), c.others, inputs);
    }
  }

  lemma {:induction false} AndFoldEval(acc: Expr, cs: seq<Clause>, inputs: Inputs)
    requires Eval(acc, inputs).Some? && AllSafe(cs, inputs)
    ensures Eval(AndFold(acc, cs), inputs) == Some(Eval(acc, inputs).value && AllTrue(cs, inputs))
    decreases |cs|
  {
    if cs != [] {
      ClauseEval(cs[0], inputs);
      AndFoldEval(And(acc, ClauseExpr(cs[0])), cs[1..], inputs);
      assert AllTrue(cs, inputs) <==> ClauseTrue(cs[0], inputs) && AllTrue(cs[1..], inputs) by {
        assert forall i | 0 < i < |cs| :: cs[i] == cs[1..][i - 1];
      }
    }
  }

  lemma GroupEval(g: Group, inputs: Inputs)
    requires GroupSafe(g, inputs)
    ensures Eval(GroupExpr(g), inputs) == Some(GroupTrue(g, inputs))
  {
    ClauseEval(g.head, inputs);
    AndFoldEval(ClauseExpr(g.head), g.tail, inputs);
  }

  lemma {:induction false} GroupsFoldEval(acc: Expr, gs: seq<Group>, inputs: Inputs)
    requires Eval(acc, inputs).Some? && GroupsSafe(gs, inputs)
    ensures Eval(GroupsFold(acc, gs), inputs) == Some(Eval(acc, inputs).value || GroupsTrue(gs, inputs))
    decreases |gs|
  {
    if gs != [] {
      GroupEval(gs[0], inputs);
      GroupsFoldEval(Or(acc, GroupExpr(gs[0])), gs[1..], inputs);
      assert GroupsTrue(gs, inputs) <==> GroupTrue(gs[0], inputs) || GroupsTrue(gs[1..], inputs) by {
        assert forall i | 0 < i < |gs| :: gs[i] == gs[1..][i - 1];
        assert forall i | 0 <= i < |gs| - 1 :: gs[1..][i] == gs[i + 1];
      }
    }
  }

  /** The value Go computes for a disjunction of conjunctions: no operand panics,
      so short-circuiting is invisible. */
  lemma GroupsEval(gs: seq<Group>, inputs: Inputs)
    requires gs != [] && GroupsSafe(gs, inputs)
    ensures Eval(GroupsExpr(gs), inputs) == Some(GroupsTrue(gs, inputs))
  {
    GroupEval(gs[0], inputs);
    GroupsFoldEval(GroupExpr(gs[0]), gs[1..], inputs);
    assert GroupsTrue(gs, inputs) <==> GroupTrue(gs[0], inputs) || GroupsTrue(gs[1..], inputs) by {
      assert forall i | 0 < i < |gs| :: gs[i] == gs[1..][i - 1];
      assert forall i | 0 <= i < |gs| - 1 :: gs[1..][i] == gs[i + 1];
    }
  }

  // ------------------------------------------------------------ conjunction

  /** What putting `&&` between two emitted texts gives: it binds the last
      conjunction of the left text to the first of the right one only. */
  function Glue(gs: seq<Group>, hs: seq<Group>): (r: seq<Group>)
    requires gs != [] && hs != []
    ensures r != []
  {
    if |gs| == 1 then
      [Group(gs[0].head, gs[0].tail + [hs[0].head] + hs[0].tail)] + hs[1..]
    else
      [gs[0]] + Glue(gs[1..], hs)
  }

  lemma {:induction false} AndClausesConcat(cs: seq<Clause>, ds: seq<Clause>)
    ensures AndClauses(cs + ds) == AndClauses(cs) + AndClauses(ds)
    decreases |cs|
  {
    if cs == [] {
      assert cs + ds == ds;
    } else {
      assert (cs + ds)[1..] == cs[1..] + ds;
      AndClausesConcat(cs[1..], ds);
    }
  }

  lemma GroupAppend(g: Group, h: Group)
    ensures GroupTokens(Group(g.head, g.tail + [h.head] + h.tail)) == GroupTokens(g) + [AndAnd] + GroupTokens(h)
  {
    var right := [h.head] + h.tail;
    assert g.tail + [h.head] + h.tail == g.tail + right;
    AndClausesConcat(g.tail, right);
    assert right[1..] == h.tail;
  }

  lemma TokensCons(g: Group, gs: seq<Group>)
    requires gs != []
    ensures Tokens([g] + gs) == GroupTokens(g) + [OrOr] + Tokens(gs)
  {
    assert ([g] + gs)[1..] == gs;
    assert OrGroups(gs) == [OrOr] + Tokens(gs);
  }

  lemma TokensOpen(g: Group, hs: seq<Group>)
    ensures Tokens([g] + hs) == GroupTokens(g) + OrGroups(hs)
  {
    assert ([g] + hs)[1..] == hs;
  }

  lemma GlueOne(g: Group, h: Group, hs: seq<Group>)
    ensures Tokens([Group(g.head, g.tail + [h.head] + h.tail)] + hs)
         == GroupTokens(g) + [AndAnd] + Tokens([h] + hs)
  {
    GroupAppend(g, h);
    TokensOpen(Group(g.head, g.tail + [h.head] + h.tail), hs);
    TokensOpen(h, hs);
    Regroup(GroupTokens(g), [AndAnd], GroupTokens(h), OrGroups(hs));
  }

  lemma {:induction false} GlueTokens(gs: seq<Group>, hs: seq<Group>)
    requires gs != [] && hs != []
    ensures Tokens(Glue(gs, hs)) == Tokens(gs) + [AndAnd] + Tokens(hs)
    decreases |gs|
  {
    assert [hs[0]] + hs[1..] == hs && [gs[0]] + gs[1..] == gs;
    if |gs| == 1 {
      GlueOne(gs[0], hs[0], hs[1..]);
      TokensOpen(gs[0], []);
    } else {
      GlueTokens(gs[1..], hs);
      TokensCons(gs[0], Glue(gs[1..], hs));
      TokensCons(gs[0], gs[1..]);
      Regroup(GroupTokens(gs[0]), [OrOr], Tokens(gs[1..]), [AndAnd]);
      Regroup(GroupTokens(gs[0]), [OrOr], Tokens(gs[1..]) + [AndAnd], Tokens(hs));
    }
  }

  // --------------------------------------------------- conjunction of many

  /** Conditions joined by `&&`, the empty ones left out. */
  function GlueAll(parts: seq<seq<Group>>): seq<Group> {
    if parts == [] then []
    else
      var rest := GlueAll(parts[1..]);
      if parts[0] == [] then rest else if rest == [] then parts[0] else Glue(parts[0], rest)
  }

  function PartTokens(parts: seq<seq<Group>>): seq<seq<Token>> {
    if parts == [] then []
    else (if parts[0] == [] then [] else [Tokens(parts[0])]) + PartTokens(parts[1..])
  }

  lemma {:induction false} GlueAllTokens(parts: seq<seq<Group>>)
    ensures GlueAll(parts) == [] <==> PartTokens(parts) == []
    ensures GlueAll(parts) != [] ==> JoinTokens(PartTokens(parts), AndAnd) == Tokens(GlueAll(parts))
  {
    if parts != [] {
      GlueAllTokens(parts[1..]);
      var rest, more := GlueAll(parts[1..]), PartTokens(parts[1..]);
      if parts[0] == [] {
        assert PartTokens(parts) == [] + more == more;
      } else {
        var all := [Tokens(parts[0])] + more;
        assert PartTokens(parts) == all && all[1..] == more;
        if rest == [] {
          assert all == [Tokens(parts[0])];
        } else {
          GlueTokens(parts[0], rest);
        }
      }
    }
  }

  predicate PartsSafe(parts: seq<seq<Group>>, inputs: Inputs) {
    forall k | 0 <= k < |parts| :: GroupsSafe(parts[k], inputs)
  }

  lemma {:induction false} GlueSafe(gs: seq<Group>, hs: seq<Group>, inputs: Inputs)
    requires gs != [] && hs != [] && GroupsSafe(gs, inputs) && GroupsSafe(hs, inputs)
    ensures GroupsSafe(Glue(gs, hs), inputs)
    decreases |gs|
  {
    if |gs| > 1 {
      GlueSafe(gs[1..], hs, inputs);
    } else {
      assert GroupSafe(gs[0], inputs) && GroupSafe(hs[0], inputs);
    }
  }

  lemma {:induction false} GlueAllSafe(parts: seq<seq<Group>>, inputs: Inputs)
    requires PartsSafe(parts, inputs)
    ensures GroupsSafe(GlueAll(parts), inputs)
  {
    if parts != [] {
      GlueAllSafe(parts[1..], inputs);
      assert GroupsSafe(parts[0], inputs);
      if parts[0] != [] && GlueAll(parts[1..]) != [] {
        GlueSafe(parts[0], GlueAll(parts[1..]), inputs);
      }
    }
  }

  lemma GlueSingle(g: Group, h: Group, inputs: Inputs)
    ensures |Glue([g], [h])| == 1
    ensures GroupTrue(Glue([g], [h])[0], inputs) <==> GroupTrue(g, inputs) && GroupTrue(h, inputs)
  {
    var joined := Group(g.head, g.tail + [h.head] + h.tail);
    assert Glue([g], [h]) == [joined];
    var n := |g.tail|;
    assert joined.tail[n] == h.head;
    assert forall i | 0 <= i < |h.tail| :: joined.tail[n + 1 + i] == h.tail[i];
    assert forall i | 0 <= i < n :: joined.tail[i] == g.tail[i];
    forall i | 0 <= i < |joined.tail| && i != n
      ensures joined.tail[i] == if i < n then g.tail[i] else h.tail[i - n - 1]
    {
    }
  }

  /** A part that says nothing, or says one conjunction, which is true. */
  predicate PartTrue(part: seq<Group>, inputs: Inputs) {
    part == [] || GroupsTrue(part, inputs)
  }

  predicate PartsTrue(parts: seq<seq<Group>>, inputs: Inputs) {
    forall k | 0 <= k < |parts| :: PartTrue(parts[k], inputs)
  }

  /** If no part is a disjunction, the whole is the conjunction of the parts. */
  lemma {:induction false} GlueAllStrict(parts: seq<seq<Group>>, inputs: Inputs)
    requires forall k | 0 <= k < |parts| :: |parts[k]| <= 1
    ensures |GlueAll(parts)| <= 1
    ensures PartTrue(GlueAll(parts), inputs) <==> PartsTrue(parts, inputs)
  {
    if parts != [] {
      var first, rest := parts[0], GlueAll(parts[1..]);
      GlueAllStrict(parts[1..], inputs);
      assert PartsTrue(parts, inputs) <==> PartTrue(first, inputs) && PartsTrue(parts[1..], inputs) by {
        assert forall k | 0 < k < |parts| :: parts[k] == parts[1..][k - 1];
      }
      if first != [] && rest != [] {
        assert first == [first[0]] && rest == [rest[0]];
        GlueSingle(first[0], rest[0], inputs);
        SingleTrue(first, inputs);
        SingleTrue(rest, inputs);
        SingleTrue(GlueAll(parts), inputs);
      }
    }
  }

  lemma SingleTrue(gs: seq<Group>, inputs: Inputs)
    requires |gs| == 1
    ensures GroupsTrue(gs, inputs) <==> GroupTrue(gs[0], inputs)
  {
  }

  /** If only one part says something, the whole is that part. */
  lemma {:induction false} GlueAllSole(parts: seq<seq<Group>>, k: nat)
    requires k < |parts| && forall i | 0 <= i < |parts| && i != k :: parts[i] == []
    ensures GlueAll(parts) == parts[k]
  {
    if k > 0 {
      assert parts[1..][k - 1] == parts[k];
      GlueAllSole(parts[1..], k - 1);
    } else {
      GlueAllEmpty(parts[1..]);
    }
  }

  lemma {:induction false} GlueAllEmpty(parts: seq<seq<Group>>)
    requires forall i | 0 <= i < |parts| :: parts[i] == []
    ensures GlueAll(parts) == []
  {
    if parts != [] {
      GlueAllEmpty(parts[1..]);
    }
  }

  lemma {:induction false} GlueAllNonEmpty(parts: seq<seq<Group>>, k: nat)
    requires k < |parts| && parts[k] != []
    ensures GlueAll(parts) != []
  {
    if k > 0 {
      assert parts[1..][k - 1] == parts[k];
      GlueAllNonEmpty(parts[1..], k - 1);
    }
  }

  /** A disjunction in front keeps its first alternative to itself. */
  lemma GlueAllFirst(parts: seq<seq<Group>>)
    requires parts != [] && |parts[0]| >= 2
    ensures GlueAll(parts) != [] && GlueAll(parts)[0] == parts[0][0]
  {
  }
}
