/** Exactly when a comment or a rune literal misleads the splicer. */
module GoComments {
  import opened Wrappers
  import opened GoStrings
  import opened Splice
  import opened GoScanner

  // ------------------------------------------------- more text behind it

  lemma {:induction false} LineEndOn(s: string, rest: string)
    requires LineEnd(s).Some?
    ensures LineEnd(s + rest) == LineEnd(s)
  {
    if s[0] != '\n' {
      LineEndOn(s[1..], rest);
      assert (s + rest)[1..] == s[1..] + rest;
    }
  }

  lemma {:induction false} BlockEndOn(s: string, rest: string)
    requires BlockEnd(s).Some?
    ensures BlockEnd(s + rest) == BlockEnd(s)
  {
    if !(s[0] == '*' && s[1] == '/') {
      BlockEndOn(s[1..], rest);
      assert (s + rest)[1..] == s[1..] + rest;
    }
  }

  lemma {:induction false} RuneEndOn(s: string, escape: bool, rest: string)
    requires RuneEnd(s, escape).Some?
    ensures RuneEnd(s + rest, escape) == RuneEnd(s, escape)
    decreases |s|
  {
    if !(s[0] == '\'' && !escape) {
      RuneEndOn(s[1..], s[0] == '\\' && !escape, rest);
      assert (s + rest)[1..] == s[1..] + rest;
    }
  }

  lemma ForeignOn(s: string, rest: string)
    requires StartsForeign(s) && ForeignLength(s).Some?
    ensures StartsForeign(s + rest) && ForeignLength(s + rest) == ForeignLength(s)
  {
    if s[0] == '\'' {
      RuneEndOn(s[1..], false, rest);
      assert (s + rest)[1..] == s[1..] + rest;
    } else {
      assert (s + rest)[2..] == s[2..] + rest;
      if s[1] == '/' {
        LineEndOn(s[2..], rest);
      } else {
        BlockEndOn(s[2..], rest);
      }
    }
  }

  // ---------------------------------------------- where the splicer can be

  lemma {:induction false} AfterKeeps(c: Scanner, a: string)
    requires Consistent(c) && c.depth > 0 && Extent(c, a) == None
    ensures Consistent(After(c, a)) && After(c, a).depth > 0
    decreases |a|
  {
    if a != "" {
      AfterCons(c, a);
      AfterKeeps(Advance(c, a[0]), a[1..]);
    }
  }

  predicate Quoteless(s: string) {
    forall i | 0 <= i < |s| :: s[i] != '"' && s[i] != '`'
  }

  /** Without a quote nothing leads out of a string. */
  lemma {:induction false} StaysInside(c: Scanner, s: string)
    requires !InCode(c) && Quoteless(s)
    ensures Extent(c, s) == None
    decreases |s|
  {
    if s != "" {
      assert s[0] != '"' && s[0] != '`';
      StaysInside(Advance(c, s[0]), s[1..]);
    }
  }

  /** From a greater depth the brace is found strictly later. */
  lemma {:induction false} DeeperIsLater(c: Scanner, e: int, s: string)
    requires 0 < c.depth < e && Extent(c.(depth := e), s).Some?
    ensures Extent(c, s).Some? && Extent(c, s).value < Extent(c.(depth := e), s).value
    decreases |s|
  {
    var b := c.(depth := e);
    if !Closes(c, s[0]) && !Closes(b, s[0]) {
      var v, w := Advance(c, s[0]), Advance(b, s[0]);
      assert w == v.(depth := w.depth) && 0 < v.depth < w.depth;
      DeeperIsLater(v, w.depth, s[1..]);
    }
  }

  // ------------------------------------------------------------- exactly

  /** The splicer comes out of the text in code, or nothing behind it could end a string. */
  predicate Lands(d: int, text: string, v: string) {
    Extent(Code(d), text).Some? || InCode(After(Code(d), text)) || Quoteless(v)
  }

  /** One comment or rune literal in front of text that both read alike: the splicer finds
      Go's brace exactly if it reads the literal without closing in it and at its end is
      in code at the same depth. */
  lemma ForeignIff(d: int, text: string, v: string)
    requires d >= 1 && IsForeign(text) && Harmless(Code(d), v) && Extent(Code(d), v).Some?
    requires Lands(d, text, v)
    ensures Extent(Code(d), text + v) == GoExtent(Lexer(d, Plain, false), text + v) <==> Leads(Code(d), text, Code(d))
  {
    GoBehind(d, text, v);
    if Extent(Code(d), text).Some? {
      ExtentPrefix(Code(d), text, v);
    } else {
      SplicerBehind(d, text, v);
      AfterKeeps(Code(d), text);
      OtherStateDiffers(d, After(Code(d), text), v);
      PlusSame(Extent(After(Code(d), text), v), Extent(Code(d), v), |text|);
    }
  }

  lemma SplicerBehind(d: int, text: string, v: string)
    requires Extent(Code(d), text) == None
    ensures Extent(Code(d), text + v) == Plus(Extent(After(Code(d), text), v), |text|)
  {
    ExtentAfter(Code(d), text, v);
  }

  lemma GoBehind(d: int, text: string, v: string)
    requires IsForeign(text) && Harmless(Code(d), v)
    ensures GoExtent(Lexer(d, Plain, false), text + v) == Plus(Extent(Code(d), v), |text|)
  {
    ForeignOn(text, v);
    ForeignSkipped(d, text + v);
    assert (text + v)[|text|..] == v;
    SplicerAgrees(Code(d), v);
  }

  /** In another state the splicer ends elsewhere. */
  lemma OtherStateDiffers(d: int, c: Scanner, v: string)
    requires d >= 1 && Consistent(c) && c.depth > 0 && Extent(Code(d), v).Some? && (InCode(c) || Quoteless(v))
    ensures Extent(c, v) == Extent(Code(d), v) <==> c == Code(d)
  {
    if !InCode(c) {
      StaysInside(c, v);
    } else {
      assert c == Code(c.depth);
      if c.depth < d {
        DeeperIsLater(c, d, v);
      } else if d < c.depth && Extent(c, v).Some? {
        DeeperIsLater(Code(d), c.depth, v);
      }
    }
  }

  /** Where a string could end behind it, a text that does not land can be made up for:
      here an escaped quote turns the splicer back. */
  lemma ChanceAgreement()
    ensures var text, v := "//\"\n", "\"\\\"\"}";
            && IsForeign(text) && Harmless(Code(1), v) && !Lands(1, text, v) && !Leads(Code(1), text, Code(1))
            && Extent(Code(1), text + v) == GoExtent(Lexer(1, Plain, false), text + v) == Some(9)
  {
    var text, v := "//\"\n", "\"\\\"\"}";
    EscapedQuote();
    QuotedComment();
    assert v[0] == '"';
    ExtentAfter(Code(1), text, v);
    GoBehind(1, text, v);
  }

  lemma EscapedQuote()
    ensures var v := "\"\\\"\"}";
            Extent(Code(1), v) == Some(5) && Extent(Quoted(1), v) == Some(5) && Harmless(Code(1), v)
  {
    var v := "\"\\\"\"}";
    assert v[1..] == "\\\"\"}" && "\\\"\"}"[1..] == "\"\"}" && "\"\"}"[1..] == "\"}" && "\"}"[1..] == "}";
    var escaped := Scanner(1, true, false, true);
    assert Extent(Code(1), "}") == Some(1) && Harmless(Code(1), "}");
    assert Extent(Quoted(1), "\"}") == Some(2) && Harmless(Quoted(1), "\"}");
    assert Extent(escaped, "\"\"}") == Some(3) && Harmless(escaped, "\"\"}");
    assert Extent(Quoted(1), "\\\"\"}") == Some(4) && Harmless(Quoted(1), "\\\"\"}");
    assert Extent(Code(1), "\"\"}") == Some(3);
    assert Extent(Code(1), "\\\"\"}") == Some(4);
  }

  lemma QuotedComment()
    ensures var text := "//\"\n";
            && IsForeign(text) && Extent(Code(1), text) == None && After(Code(1), text) == Quoted(1)
  {
    var text := "//\"\n";
    assert text[2..] == "\"\n" && "\"\n"[1..] == "\n" && text[1..] == "/\"\n" && "/\"\n"[1..] == "\"\n";
    assert LineEnd("\n") == Some(1) && LineEnd("\"\n") == Some(2);
    AfterCons(Code(1), text);
    AfterCons(Code(1), "/\"\n");
    AfterCons(Code(1), "\"\n");
    AfterCons(Quoted(1), "\n");
    assert "\n"[1..] == "";
  }

  // --------------------------------------------------------- whole receivers

  lemma GoStep(c: Scanner, s: string)
    requires Consistent(c) && s != "" && !Closes(c, s[0]) && !(InCode(c) && StartsForeign(s))
    ensures GoExtent(AsLexer(c), s) == Plus(GoExtent(AsLexer(Advance(c, s[0])), s[1..]), 1)
  {
    ReadAgrees(c, s[0]);
  }

  /** Go's lexer behind text whose comments are harmless; a slash at its end could start
      a comment. */
  lemma {:induction false} GoThrough(c: Scanner, a: string, v: Scanner, b: string)
    requires Consistent(c) && Harmless(c, a) && Leads(c, a, v) && (a == "" || a[|a| - 1] != '/')
    ensures GoExtent(AsLexer(c), a + b) == Plus(GoExtent(AsLexer(v), b), |a|)
    decreases |a|
  {
    if a == "" {
      Nothing(c, a, b);
    } else if InCode(c) && StartsForeign(a) {
      var n := ForeignLength(a).value;
      ForeignFirst(c, a, v, n);
      GoThrough(c, a[n..], v, b);
      GoBehindFirst(c, a, b, n);
      PlusThen(GoExtent(AsLexer(v), b), |a| - n, n);
    } else {
      CodeFirst(c, a, v);
      GoThrough(Advance(c, a[0]), a[1..], v, b);
      GoCodeFirst(c, a, b);
      PlusThen(GoExtent(AsLexer(v), b), |a| - 1, 1);
    }
  }

  lemma Nothing(c: Scanner, a: string, b: string)
    requires a == ""
    ensures After(c, a) == c && GoExtent(AsLexer(c), a + b) == Plus(GoExtent(AsLexer(c), b), |a|)
  {
    assert a + b == b;
  }

  lemma PlusThen(n: Option<nat>, j: nat, k: nat)
    ensures Plus(Plus(n, j), k) == Plus(n, j + k)
  {
  }

  lemma CodeFirst(c: Scanner, a: string, v: Scanner)
    requires Consistent(c) && a != "" && Leads(c, a, v) && !(InCode(c) && StartsForeign(a)) && Harmless(c, a)
    ensures !Closes(c, a[0]) && Consistent(Advance(c, a[0]))
    ensures Harmless(Advance(c, a[0]), a[1..]) && Leads(Advance(c, a[0]), a[1..], v)
  {
    AfterCons(c, a);
  }

  lemma GoCodeFirst(c: Scanner, a: string, b: string)
    requires Consistent(c) && a != "" && !Closes(c, a[0]) && !(InCode(c) && StartsForeign(a)) && a[|a| - 1] != '/'
    ensures GoExtent(AsLexer(c), a + b) == Plus(GoExtent(AsLexer(Advance(c, a[0])), a[1..] + b), 1)
  {
    assert (a + b)[1..] == a[1..] + b;
    GoStep(c, a + b);
  }

  lemma ForeignFirst(c: Scanner, a: string, v: Scanner, n: nat)
    requires InCode(c) && a != "" && StartsForeign(a) && Harmless(c, a) && Leads(c, a, v)
    requires n <= |a| && ForeignLength(a) == Some(n)
    requires a[|a| - 1] != '/'
    ensures Harmless(c, a[n..]) && Leads(c, a[n..], v) && (a[n..] == "" || a[n..][|a[n..]| - 1] != '/')
  {
    LeadsBehind(c, a, v, n);
  }

  lemma LeadsBehind(c: Scanner, a: string, v: Scanner, n: nat)
    requires n <= |a| && Leads(c, a[..n], c) && Leads(c, a, v)
    ensures Leads(c, a[n..], v)
  {
    assert a == a[..n] + a[n..];
    ExtentAfter(c, a[..n], a[n..]);
  }

  lemma GoBehindFirst(c: Scanner, a: string, b: string, n: nat)
    requires Consistent(c) && InCode(c) && StartsForeign(a) && ForeignLength(a) == Some(n)
    ensures GoExtent(AsLexer(c), a + b) == Plus(GoExtent(AsLexer(c), a[n..] + b), n)
  {
    ForeignOn(a, b);
    ForeignSkipped(c.depth, a + b);
    assert (a + b)[n..] == a[n..] + b;
  }

  /** A Go file with the handler's function in it. */
  function Receiver(sig: string, before: string, body: string): string {
    before + (sig + (" " + body))
  }

  /** Where Go says that the function stands. */
  function GoSpan(sig: string, before: string, body: string): Option<Span> {
    match GoExtent(Lexer(0, Plain, false), body)
    case None => None
    case Some(n) => Some(Span(|before|, |before| + |sig| + 1 + n))
  }

  lemma LocateIn(sig: string, src: string, start: nat, brace: nat, body: string)
    requires start <= |src| && brace <= |src[start..]|
    requires Index(src, sig) == start && Index(src[start..], "{") == brace && src[start + brace..] == body
    ensures Locate(sig, src) == SpanOf(Extent(Code(0), body), start, start + brace)
  {
    LocateAt(sig, src, start, brace, Extent(Code(0), body));
  }

  function SpanOf(n: Option<nat>, start: nat, body: nat): Result<Span, Fault> {
    if n.None? then Err(Unterminated) else Ok(Span(start, body + n.value))
  }

  lemma SignedLocates(sig: string, before: string, body: string)
    requires Quiet(sig) && Index(before + (sig + (" " + body)), sig) == |before| && body != "" && body[0] == '{'
    ensures Locate(sig, before + (sig + (" " + body)))
         == SpanOf(Extent(Code(0), body), |before|, |before| + |sig| + 1)
  {
    var tail := sig + (" " + body);
    BraceAfter(sig, body);
    BodyOf(sig, body);
    TailOf(before, tail, |sig| + 1);
    assert |tail| == |sig| + 1 + |body|;
    LocateIn(sig, before + tail, |before|, |sig| + 1, body);
  }

  /** The splicer cuts out Go's function exactly if both match the same brace. */
  lemma SpansAgree(sig: string, before: string, body: string, located: Result<Span, Fault>)
    requires located == SpanOf(Extent(Code(0), body), |before|, |before| + |sig| + 1)
    requires GoExtent(Lexer(0, Plain, false), body).Some?
    ensures located == Ok(GoSpan(sig, before, body).value) <==>
            Extent(Code(0), body) == GoExtent(Lexer(0, Plain, false), body)
  {
    SameSpan(Extent(Code(0), body), GoExtent(Lexer(0, Plain, false), body).value, |before|, |before| + |sig| + 1);
  }

  lemma SameSpan(m: Option<nat>, n: nat, start: nat, body: nat)
    ensures SpanOf(m, start, body) == Ok(Span(start, body + n)) <==> m == Some(n)
  {
  }

  /** Both scanners behind the brace and the first part of a body. */
  lemma ThroughFirst(first: string, d: int, rest: string)
    requires Harmless(Code(1), first) && Leads(Code(1), first, Code(d))
    requires first == "" || first[|first| - 1] != '/'
    ensures Extent(Code(0), "{" + (first + rest)) == Plus(Extent(Code(d), rest), |first| + 1)
    ensures GoExtent(Lexer(0, Plain, false), "{" + (first + rest))
         == Plus(GoExtent(Lexer(d, Plain, false), rest), |first| + 1)
  {
    SplicerThrough(first, d, rest);
    GoThroughFirst(first, d, rest);
    OpenBrace(first + rest);
    PlusThen(Extent(Code(d), rest), |first|, 1);
    PlusThen(GoExtent(Lexer(d, Plain, false), rest), |first|, 1);
  }

  lemma SplicerThrough(first: string, d: int, rest: string)
    requires Leads(Code(1), first, Code(d))
    ensures Extent(Code(1), first + rest) == Plus(Extent(Code(d), rest), |first|)
  {
    ExtentAfter(Code(1), first, rest);
  }

  lemma GoThroughFirst(first: string, d: int, rest: string)
    requires Harmless(Code(1), first) && Leads(Code(1), first, Code(d))
    requires first == "" || first[|first| - 1] != '/'
    ensures GoExtent(Lexer(1, Plain, false), first + rest) == Plus(GoExtent(Lexer(d, Plain, false), rest), |first|)
  {
    GoThrough(Code(1), first, Code(d), rest);
  }

  lemma BodiesAgreeIff(first: string, d: int, text: string, v: string)
    requires d >= 1 && Harmless(Code(1), first) && Leads(Code(1), first, Code(d))
    requires first == "" || first[|first| - 1] != '/'
    requires IsForeign(text) && Harmless(Code(d), v) && Extent(Code(d), v).Some? && Lands(d, text, v)
    ensures var body := "{" + (first + (text + v));
            && GoExtent(Lexer(0, Plain, false), body).Some?
            && (Extent(Code(0), body) == GoExtent(Lexer(0, Plain, false), body) <==> Leads(Code(d), text, Code(d)))
  {
    ThroughFirst(first, d, text + v);
    GoBehind(d, text, v);
    ForeignIff(d, text, v);
    PlusSame(Extent(Code(d), text + v), GoExtent(Lexer(d, Plain, false), text + v), |first| + 1);
  }

  lemma PlusSame(m: Option<nat>, n: Option<nat>, k: nat)
    ensures Plus(m, k) == Plus(n, k) <==> m == n
  {
  }

  /** A receiver with one comment or rune literal at any place of the function, and any
      number of harmless ones around it: the splicer cuts out Go's function exactly if
      that one is harmless too. */
  lemma ReceiverIff(sig: string, before: string, first: string, d: int, text: string, v: string)
    requires d >= 1 && Harmless(Code(1), first) && Leads(Code(1), first, Code(d))
    requires first == "" || first[|first| - 1] != '/'
    requires IsForeign(text) && Harmless(Code(d), v) && Extent(Code(d), v).Some? && Lands(d, text, v)
    requires Quiet(sig) && Index(Receiver(sig, before, "{" + (first + (text + v))), sig) == |before|
    ensures var body := "{" + (first + (text + v));
            && GoSpan(sig, before, body).Some?
            && (Locate(sig, Receiver(sig, before, body)) == Ok(GoSpan(sig, before, body).value) <==>
                Leads(Code(d), text, Code(d)))
  {
    BodiesAgreeIff(first, d, text, v);
    var body := "{" + (first + (text + v));
    SignedLocates(sig, before, body);
    SpansAgree(sig, before, body, Locate(sig, Receiver(sig, before, body)));
  }

  lemma OpenBrace(rest: string)
    ensures Extent(Code(0), "{" + rest) == Plus(Extent(Code(1), rest), 1)
    ensures GoExtent(Lexer(0, Plain, false), "{" + rest) == Plus(GoExtent(Lexer(1, Plain, false), rest), 1)
  {
    assert ("{" + rest)[1..] == rest;
  }

  // ------------------------------------------------------- failing receivers

  /** A brace behind quiet text is where the splicer cuts, whatever Go makes of it. */
  lemma EarlyCut(sig: string, before: string, quiet: string, rest: string, fn: string)
    requires Quiet(quiet) && Quiet(sig)
    requires Index(Receiver(sig, before, "{" + (quiet + ("}" + rest))), sig) == |before|
    ensures Put(sig, Receiver(sig, before, "{" + (quiet + ("}" + rest))), fn) == Ok(before + fn + rest)
  {
    var body := "{" + (quiet + ("}" + rest));
    SignedLocates(sig, before, body);
    QuietCloses(quiet, rest);
    ReceiverEnds(sig, before, quiet, rest);
    CutAt(sig, Receiver(sig, before, body), before, sig + (" " + ("{" + (quiet + "}"))), rest, fn);
  }

  lemma ReceiverEnds(sig: string, before: string, quiet: string, rest: string)
    ensures Receiver(sig, before, "{" + (quiet + ("}" + rest)))
         == before + (sig + (" " + ("{" + (quiet + "}")))) + rest
  {
  }

  lemma QuietCloses(quiet: string, rest: string)
    requires Quiet(quiet)
    ensures Extent(Code(0), "{" + (quiet + ("}" + rest))) == Some(|quiet| + 2)
  {
    QuietLeads(1, quiet);
    OpenBrace(quiet + ("}" + rest));
    ExtentAfter(Code(1), quiet, "}" + rest);
  }

  lemma CutAt(sig: string, src: string, before: string, middle: string, rest: string, fn: string)
    requires src == before + middle + rest && Locate(sig, src) == Ok(Span(|before|, |before| + |middle|))
    ensures Put(sig, src, fn) == Ok(before + fn + rest)
  {
    assert src[..|before|] == before && src[|before| + |middle|..] == rest;
  }

  /** A whole receiver with a brace in what is no code. Go matches the last brace of the
      function; the splicer cuts at the first, and the rest of the old function stays
      behind the new one. */
  lemma BraceCuts(sig: string, first: string, open: string, close: string, quiet: string, fn: string)
    requires Quiet(sig) && sig != ""
    requires Quiet(first) && Calm(first) && Quiet(open) && Quiet(quiet) && Calm(quiet)
    requires IsForeign(open + ("}" + close))
    ensures var body := "{" + (first + ((open + ("}" + close)) + (quiet + "}")));
            && GoSpan(sig, "", body) == Some(Span(0, |Receiver(sig, "", body)|))
            && Put(sig, Receiver(sig, "", body), fn) == Ok(fn + (close + (quiet + "}")))
  {
    var rest := close + (quiet + "}");
    Regrouped(first, open, close, quiet);
    CutsFirst(sig, first + open, rest, fn);
    WholeSpan(sig, first, open + ("}" + close), quiet);
  }

  lemma CutsFirst(sig: string, quiet: string, rest: string, fn: string)
    requires Quiet(sig) && sig != "" && Quiet(quiet)
    ensures Put(sig, Receiver(sig, "", "{" + (quiet + ("}" + rest))), fn) == Ok(fn + rest)
  {
    var body := "{" + (quiet + ("}" + rest));
    SignatureFirst(sig, body);
    CutsAfter(sig, "", body, quiet, rest, fn);
    NothingBefore(fn, rest);
  }

  lemma NothingBefore(fn: string, rest: string)
    ensures "" + fn + rest == fn + rest
  {
  }

  lemma CutsAfter(sig: string, before: string, body: string, quiet: string, rest: string, fn: string)
    requires Quiet(sig) && Quiet(quiet) && body == "{" + (quiet + ("}" + rest))
    requires Index(Receiver(sig, before, body), sig) == |before|
    ensures Put(sig, Receiver(sig, before, body), fn) == Ok(before + fn + rest)
  {
    EarlyCut(sig, before, quiet, rest, fn);
  }

  lemma Regrouped(first: string, open: string, close: string, quiet: string)
    ensures first + ((open + ("}" + close)) + (quiet + "}")) == (first + open) + ("}" + (close + (quiet + "}")))
  {
  }

  /** A brace in a comment, and one between single quotes. */
  lemma CommentedBraceCuts(fn: string)
    ensures var body := "{" + ("\n\t" + (("// " + ("}" + "\n")) + ("\treturn functionName\n" + "}")));
            && GoSpan(SIGNATURE, "", body) == Some(Span(0, |Receiver(SIGNATURE, "", body)|))
            && Put(SIGNATURE, Receiver(SIGNATURE, "", body), fn) == Ok(fn + ("\n" + ("\treturn functionName\n" + "}")))
  {
    LineIsForeign();
    assert "// " + ("}" + "\n") == "// }\n";
    SignatureQuiet();
    BraceCuts(SIGNATURE, "\n\t", "// ", "\n", "\treturn functionName\n", fn);
  }

  lemma QuotedBraceCuts(fn: string)
    ensures var body := "{" + ("\n\tuse(" + (("'" + ("}" + "'")) + (")\n\treturn payload\n" + "}")));
            && GoSpan(SIGNATURE, "", body) == Some(Span(0, |Receiver(SIGNATURE, "", body)|))
            && Put(SIGNATURE, Receiver(SIGNATURE, "", body), fn) == Ok(fn + ("'" + (")\n\treturn payload\n" + "}")))
  {
    RuneIsForeign();
    assert "'" + ("}" + "'") == "'}'";
    SignatureQuiet();
    BraceCuts(SIGNATURE, "\n\tuse(", "'", "'", ")\n\treturn payload\n", fn);
  }

  lemma SignatureFirst(sig: string, body: string)
    requires sig != ""
    ensures Index(Receiver(sig, "", body), sig) == |""|
  {
    StartsAt(sig, " " + body);
    assert "" + (sig + (" " + body)) == sig + (" " + body);
  }

  lemma LineIsForeign()
    ensures IsForeign("// }\n")
  {
    var s := "// }\n";
    assert s[2..] == " }\n" && " }\n"[1..] == "}\n" && "}\n"[1..] == "\n";
    assert LineEnd("\n") == Some(1) && LineEnd("}\n") == Some(2) && LineEnd(" }\n") == Some(3);
  }

  lemma RuneIsForeign()
    ensures IsForeign("'}'")
  {
    var s := "'}'";
    assert s[1..] == "}'" && "}'"[1..] == "'";
    assert RuneEnd("'", false) == Some(1) && RuneEnd("}'", false) == Some(2);
  }

  /** Go's function ends at the last character of the receiver. */
  lemma WholeSpan(sig: string, first: string, text: string, quiet: string)
    requires Quiet(first) && Calm(first) && IsForeign(text) && Quiet(quiet) && Calm(quiet)
    ensures var body := "{" + (first + (text + (quiet + "}")));
            GoSpan(sig, "", body) == Some(Span(0, |Receiver(sig, "", body)|))
  {
    var v := quiet + "}";
    QuietLeads(1, first);
    QuietLeads(1, quiet);
    ExtentAfter(Code(1), quiet, "}");
    BraceLeads(1);
    CalmHarmless(Code(1), first);
    assert Calm(v);
    CalmHarmless(Code(1), v);
    GoThrough(Code(1), first, Code(1), text + v);
    GoBehind(1, text, v);
    OpenBrace(first + (text + v));
  }
}
