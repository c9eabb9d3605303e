/** The source splicer: it finds `handleFunction` in a Go file by its signature,
    matches the braces of its body while stepping over string literals, and puts a
    newly generated function in its place. */
module Splice {
  import opened Wrappers
  import opened Sequences
  import opened GoStrings

  const SIGNATURE: string :=
    "func handleFunction(" + "functionName string," + " payload " + "map[string]string" + ") string"

  datatype Fault = NoSignature | NoBrace | Unterminated

  // ---------------------------------------------------------------- scanner

  /** The scanner's variables. */
  datatype Scanner = Scanner(depth: int, inString: bool, inRaw: bool, escape: bool)

  function Code(depth: int): Scanner {
    Scanner(depth, false, false, false)
  }

  function Quoted(depth: int): Scanner {
    Scanner(depth, true, false, false)
  }

  function Advance(c: Scanner, ch: char): Scanner {
    if !c.inString && ch == '`' then c.(inRaw := !c.inRaw)
    else if c.inRaw then c
    else if ch == '"' && !c.escape then c.(inString := !c.inString)
    else if c.inString then c.(escape := ch == '\\' && !c.escape)
    else if ch == '{' then c.(depth := c.depth + 1)
    else if ch == '}' then c.(depth := c.depth - 1)
    else c
  }

  /** The character is a brace that brings the depth back to zero. */
  predicate Closes(c: Scanner, ch: char) {
    !c.inString && !c.inRaw && ch == '}' && c.depth == 1
  }

  /** How many characters up to and including the matching brace. */
  function Extent(c: Scanner, s: string): (n: Option<nat>)
    ensures n.Some? ==> 0 < n.value <= |s|
    decreases |s|
  {
    if s == "" then None
    else if Closes(c, s[0]) then Some(1)
    else
      match Extent(Advance(c, s[0]), s[1..])
      case None => None
      case Some(n) => Some(n + 1)
  }

  datatype Span = Span(start: nat, end: nat)

  /** Where the function stands. */
  function Locate(sig: string, src: string): (r: Result<Span, Fault>)
    ensures r.Ok? ==> r.value.start < r.value.end <= |src|
  {
    var start := Index(src, sig);
    if start < 0 then Err(NoSignature)
    else
      var brace := Index(src[start..], "{");
      if brace < 0 then Err(NoBrace)
      else
        match Extent(Code(0), src[start + brace..])
        case None => Err(Unterminated)
        case Some(n) => Ok(Span(start, start + brace + n))
  }

  function Put(sig: string, src: string, fn: string): Result<string, Fault> {
    match Locate(sig, src)
    case Err(f) => Err(f)
    case Ok(span) => Ok(src[..span.start] + fn + src[span.end..])
  }

  lemma LocateAt(sig: string, src: string, start: nat, brace: nat, n: Option<nat>)
    requires start <= |src| && brace <= |src[start..]|
    requires Index(src, sig) == start && Index(src[start..], "{") == brace
    requires Extent(Code(0), src[start + brace..]) == n
    ensures Locate(sig, src) == if n.None? then Err(Unterminated) else Ok(Span(start, start + brace + n.value))
  {
  }

  function Plus(n: Option<nat>, k: nat): Option<nat> {
    match n
    case None => None
    case Some(m) => Some(k + m)
  }

  lemma ExtentStep(c: Scanner, s: string, i: nat)
    requires i < |s|
    ensures Extent(c, s[i..]) == if Closes(c, s[i]) then Some(1) else Plus(Extent(Advance(c, s[i]), s[i + 1..]), 1)
  {
    assert s[i..][1..] == s[i + 1..];
  }

  method ReplaceHandleFunction(src: string, fn: string) returns (r: Result<string, Fault>)
    ensures r == Put(SIGNATURE, src, fn)
  {
    r := ReplaceFrom(SIGNATURE, src, fn);
  }

  method ReplaceFrom(sig: string, src: string, fn: string) returns (r: Result<string, Fault>)
    ensures r == Put(sig, src, fn)
  {
    var start := Index(src, sig);
    if start == -1 {
      return Err(NoSignature);
    }
    var brace := Index(src[start..], "{");
    if brace == -1 {
      return Err(NoBrace);
    }
    var end := MatchBrace(src, brace + start);
    LocateAt(sig, src, start, brace, match end case None => None case Some(e) => Some(e - start - brace));
    match end {
      case None => return Err(Unterminated);
      case Some(e) => return Ok(src[..start] + fn + src[e..]);
    }
  }

  /** The loop of the source: walk forward from the opening brace. */
  method MatchBrace(src: string, brace: nat) returns (end: Option<nat>)
    requires brace <= |src|
    ensures end == Plus(Extent(Code(0), src[brace..]), brace)
  {
    var depth, inString, inRaw, escape := 0, false, false, false;
    var i := brace;
    while i < |src|
      invariant brace <= i <= |src|
      invariant Plus(Extent(Code(0), src[brace..]), brace)
          == Plus(Extent(Scanner(depth, inString, inRaw, escape), src[i..]), i)
    {
      var ch := src[i];
      ghost var c := Scanner(depth, inString, inRaw, escape);
      ExtentStep(c, src, i);
      if !inString && ch == '`' {
        inRaw := !inRaw;
      } else if inRaw {
      } else if ch == '"' && !escape {
        inString := !inString;
      } else if inString {
        escape := ch == '\\' && !escape;
      } else if ch == '{' {
        depth := depth + 1;
      } else if ch == '}' {
        depth := depth - 1;
        if depth == 0 {
          return Some(i + 1);
        }
      }
      assert Scanner(depth, inString, inRaw, escape) == Advance(c, ch);
      i := i + 1;
    }
    return None;
  }

  // ------------------------------------------------- what the extent is

  /** The scanner after a text. */
  function After(c: Scanner, s: string): Scanner
    decreases |s|
  {
    if s == "" then c else Advance(After(c, s[..|s| - 1]), s[|s| - 1])
  }

  lemma {:induction false} AfterCons(c: Scanner, s: string)
    requires s != ""
    ensures After(c, s) == After(Advance(c, s[0]), s[1..])
    decreases |s|
  {
    if |s| > 1 {
      AfterCons(c, s[..|s| - 1]);
      assert s[1..][..|s| - 2] == s[..|s| - 1][1..];
    } else {
      assert s[1..] == "" && s[..0] == "";
    }
  }

  lemma AfterShift(c: Scanner, s: string, k: nat)
    requires 0 < k <= |s|
    ensures After(c, s[..k]) == After(Advance(c, s[0]), s[1..][..k - 1])
  {
    AfterCons(c, s[..k]);
    assert s[..k][1..] == s[1..][..k - 1];
  }

  /** After `n` characters the depth is zero, and it was not before. */
  predicate ReturnsAt(c: Scanner, s: string, n: nat) {
    && 0 < n <= |s|
    && After(c, s[..n]).depth == 0
    && forall k | 0 <= k < n :: After(c, s[..k]).depth > 0
  }

  lemma ReturnsOn(c: Scanner, s: string, n: nat)
    requires 1 < n <= |s| && c.depth > 0 && Advance(c, s[0]).depth > 0
    ensures ReturnsAt(c, s, n) <==> ReturnsAt(Advance(c, s[0]), s[1..], n - 1)
  {
    var v := Advance(c, s[0]);
    AfterShift(c, s, n);
    forall k | 0 < k < n ensures After(c, s[..k]).depth > 0 <==> After(v, s[1..][..k - 1]).depth > 0 {
      AfterShift(c, s, k);
    }
    assert s[..0] == "";
    if ReturnsAt(c, s, n) {
      forall k | 0 <= k < n - 1 ensures After(v, s[1..][..k]).depth > 0 {
        assert After(c, s[..k + 1]).depth > 0;
        assert s[1..][..k + 1 - 1] == s[1..][..k];
      }
    }
    if ReturnsAt(v, s[1..], n - 1) {
      forall k | 0 <= k < n ensures After(c, s[..k]).depth > 0 {
        if k > 0 {
          assert After(v, s[1..][..k - 1]).depth > 0;
        }
      }
    }
  }

  /** The extent ends where the depth returns to zero for the first time. */
  lemma {:induction false} ExtentIsFirstReturn(c: Scanner, s: string, n: nat)
    requires c.depth > 0
    ensures Extent(c, s) == Some(n) <==> ReturnsAt(c, s, n)
    decreases |s|
  {
    if s != "" {
      var v := Advance(c, s[0]);
      assert s[..0] == "" && s[1..][..0] == "";
      AfterShift(c, s, 1);
      assert After(c, s[..1]) == v;
      if !Closes(c, s[0]) && 1 < n <= |s| {
        ExtentIsFirstReturn(v, s[1..], n - 1);
        ReturnsOn(c, s, n);
      }
    }
  }

  // ------------------------------------------------------------- the lens

  /** A text that is exactly one handler function: it starts with the signature and
      its last character is the brace that closes its body. */
  predicate IsHandler(sig: string, fn: string) {
    HasPrefix(fn, sig) && Locate(sig, fn) == Ok(Span(0, |fn|))
  }

  lemma {:induction false} ExtentPrefix(c: Scanner, s: string, rest: string)
    requires Extent(c, s).Some?
    ensures Extent(c, s + rest) == Extent(c, s)
    decreases |s|
  {
    if !Closes(c, s[0]) {
      assert (s + rest)[1..] == s[1..] + rest;
      ExtentPrefix(Advance(c, s[0]), s[1..], rest);
    }
  }

  /** The first occurrence stays first when everything from it on is replaced by
      text that starts with it again. */
  lemma FirstStays(a: string, sub: string, x: string, y: string)
    requires sub != "" && Index(a + (sub + x), sub) == |a|
    ensures Index(a + (sub + y), sub) == |a|
  {
    var s, t := a + (sub + x), a + (sub + y);
    assert OccursAt(t, sub, |a|) by {
      assert t[|a|..|a| + |sub|] == sub;
    }
    forall r | 0 <= r < |a| ensures !OccursAt(t, sub, r) {
      assert !OccursAt(s, sub, r);
      assert s[r..r + |sub|] == t[r..r + |sub|];
    }
  }

  lemma StartsWith(s: string, p: string, i: nat)
    requires OccursAt(s, p, i)
    ensures s[i..] == p + s[i + |p|..] && s == s[..i] + (p + s[i + |p|..])
  {
  }

  lemma IndexStays(sig: string, src: string, start: nat, fn: string, rest: string)
    requires sig != "" && start <= |src| && Index(src, sig) == start && HasPrefix(fn, sig)
    ensures Index(src[..start] + (fn + rest), sig) == start
  {
    var tail, body := src[start + |sig|..], fn[|sig|..];
    StartsWith(src, sig, start);
    StartsWith(fn, sig, 0);
    assert fn[0..] == fn;
    Associate(sig, body, rest);
    FirstStays(src[..start], sig, tail, body + rest);
  }

  /** The finding taken apart. */
  lemma LocateFinds(sig: string, src: string) returns (span: Span, brace: nat)
    requires Locate(sig, src).Ok?
    ensures Locate(sig, src) == Ok(span)
    ensures span.start < span.end <= |src| && Index(src, sig) == span.start && Index(src[span.start..], "{") == brace
    ensures span.start + brace < span.end
    ensures Extent(Code(0), src[span.start + brace..]) == Some(span.end - span.start - brace)
  {
    span, brace := Locate(sig, src).value, Index(src[Index(src, sig)..], "{");
  }

  lemma SpliceLocate(sig: string, src: string, start: nat, fn: string, rest: string)
    requires sig != "" && start <= |src| && Index(src, sig) == start && IsHandler(sig, fn)
    ensures Locate(sig, src[..start] + fn + rest) == Ok(Span(start, start + |fn|))
  {
    IndexStays(sig, src, start, fn, rest);
    BraceAndExtent(sig, fn, rest);
    Associate(src[..start], fn, rest);
    LocateTail(sig, src[..start], fn + rest, |fn|);
  }

  /** Putting in a handler makes it what is found, at the same place. */
  lemma PutLocate(sig: string, src: string, fn: string)
    requires sig != "" && Locate(sig, src).Ok? && IsHandler(sig, fn)
    ensures Put(sig, src, fn).Ok?
    ensures var start := Locate(sig, src).value.start;
            Locate(sig, Put(sig, src, fn).value) == Ok(Span(start, start + |fn|))
  {
    var span, brace := LocateFinds(sig, src);
    SpliceLocate(sig, src, span.start, fn, src[span.end..]);
  }

  lemma TailOf(before: string, text: string, k: nat)
    requires k <= |text|
    ensures (before + text)[|before|..] == text && (before + text)[|before| + k..] == text[k..]
  {
  }

  lemma LocateTail(sig: string, before: string, tail: string, n: nat)
    requires Index(before + tail, sig) == |before| && 0 <= Index(tail, "{") <= n
    requires Extent(Code(0), tail[Index(tail, "{")..]) == Some(n - Index(tail, "{"))
    ensures Locate(sig, before + tail) == Ok(Span(|before|, |before| + n))
  {
    var brace := Index(tail, "{");
    TailOf(before, tail, brace);
    LocateAt(sig, before + tail, |before|, brace, Some(n - brace));
  }

  lemma BraceAndExtent(sig: string, fn: string, rest: string)
    requires IsHandler(sig, fn)
    ensures Index(fn, "{") >= 0 && Index(fn + rest, "{") == Index(fn, "{")
    ensures Extent(Code(0), (fn + rest)[Index(fn, "{")..]) == Some(|fn| - Index(fn, "{"))
  {
    assert fn[0..] == fn;
    var brace := Index(fn, "{");
    forall r | 0 <= r < brace ensures !OccursAt(fn + rest, "{", r) {
      assert !OccursAt(fn, "{", r);
      assert (fn + rest)[r..r + 1] == fn[r..r + 1];
    }
    assert (fn + rest)[brace..brace + 1] == fn[brace..brace + 1];
    assert OccursAt(fn + rest, "{", brace);
    assert (fn + rest)[brace..] == fn[brace..] + rest;
    ExtentPrefix(Code(0), fn[brace..], rest);
  }

  /** What is put is what is got. */
  lemma PutGet(sig: string, src: string, fn: string)
    requires sig != "" && Locate(sig, src).Ok? && IsHandler(sig, fn)
    ensures var t := Put(sig, src, fn).value;
            Locate(sig, t).Ok? && t[Locate(sig, t).value.start..Locate(sig, t).value.end] == fn
  {
    PutLocate(sig, src, fn);
  }

  /** Putting back what was there changes nothing. */
  lemma GetPut(sig: string, src: string)
    requires Locate(sig, src).Ok?
    ensures Put(sig, src, src[Locate(sig, src).value.start..Locate(sig, src).value.end]) == Ok(src)
  {
    var s := Locate(sig, src).value;
    assert src[..s.start] + src[s.start..s.end] + src[s.end..] == src;
  }

  /** The last handler put in is the only one that matters. */
  lemma PutPut(sig: string, src: string, a: string, b: string)
    requires sig != "" && Locate(sig, src).Ok? && IsHandler(sig, a)
    ensures Put(sig, src, a).Ok? && Put(sig, Put(sig, src, a).value, b) == Put(sig, src, b)
  {
    var s := Locate(sig, src).value;
    PutLocate(sig, src, a);
    var t := src[..s.start] + a + src[s.end..];
    assert t[..s.start] == src[..s.start];
    assert t[s.start + |a|..] == src[s.end..];
  }

  /** Regenerating twice is the same as once. */
  lemma PutTwice(sig: string, src: string, a: string)
    requires sig != "" && Locate(sig, src).Ok? && IsHandler(sig, a)
    ensures Put(sig, src, a).Ok? && Put(sig, Put(sig, src, a).value, a) == Put(sig, src, a)
  {
    PutPut(sig, src, a, a);
  }

  /** The part that is replaced: it starts with the first signature of the file, the
      rest of it up to the end is a function body, and it is itself a handler, so
      nothing before or after the function is touched. */
  lemma ReplacedIsHandler(sig: string, src: string)
    requires Quiet(sig) && Locate(sig, src).Ok?
    ensures var s := Locate(sig, src).value; IsHandler(sig, src[s.start..s.end])
  {
    var s, brace := LocateFinds(sig, src);
    var tail, n := src[s.start..], s.end - s.start;
    assert OccursAt(tail, sig, 0) by { assert tail[0..|sig|] == src[s.start..s.start + |sig|]; }
    SignatureHasNoBrace(sig, tail, brace);
    assert src[s.start + brace..] == tail[brace..];
    CutHandler(sig, tail, brace, n);
    assert src[s.start..s.end] == tail[..n];
  }

  lemma CutHandler(sig: string, tail: string, brace: nat, n: nat)
    requires HasPrefix(tail, sig) && |sig| <= brace < n <= |tail|
    requires Index(tail, "{") == brace && Extent(Code(0), tail[brace..]) == Some(n - brace)
    ensures IsHandler(sig, tail[..n])
  {
    var fn := tail[..n];
    CutIndex(tail, n, "{", brace);
    assert OccursAt(fn, sig, 0) by { assert fn[0..|sig|] == tail[0..|sig|]; }
    ExtentCut(Code(0), tail[brace..], n - brace);
    assert tail[brace..][..n - brace] == fn[brace..];
    assert fn[0..] == fn;
    LocateAt(sig, fn, 0, brace, Some(n - brace));
  }

  lemma CutIndex(s: string, n: nat, sub: string, i: nat)
    requires n <= |s| && Index(s, sub) == i && i + |sub| <= n
    ensures Index(s[..n], sub) == i && OccursAt(s[..n], sub, i)
  {
    assert OccursAt(s[..n], sub, i) by { assert s[..n][i..i + |sub|] == s[i..i + |sub|]; }
    forall r | 0 <= r < i ensures !OccursAt(s[..n], sub, r) {
      assert !OccursAt(s, sub, r);
      assert r + |sub| <= n ==> s[..n][r..r + |sub|] == s[r..r + |sub|];
    }
  }

  lemma {:induction false} ExtentCut(c: Scanner, s: string, n: nat)
    requires Extent(c, s) == Some(n)
    ensures Extent(c, s[..n]) == Some(n)
    decreases |s|
  {
    if !Closes(c, s[0]) {
      ExtentCut(Advance(c, s[0]), s[1..], n - 1);
      assert s[..n][1..] == s[1..][..n - 1];
    }
  }

  predicate Quiet(s: string) {
    forall i | 0 <= i < |s| :: s[i] !in "{}\"`"
  }

  lemma SignatureQuiet()
    ensures Quiet(SIGNATURE) && SIGNATURE != ""
  {
    assert Quiet("func handleFunction(") && Quiet("functionName string,") && Quiet(" payload ");
    assert Quiet("map[string]string") && Quiet(") string");
  }

  lemma SignatureHasNoBrace(sig: string, s: string, brace: int)
    requires Quiet(sig) && HasPrefix(s, sig) && OccursAt(s, "{", brace)
    ensures brace >= |sig|
  {
    forall r | 0 <= r < |sig| ensures !OccursAt(s, "{", r) {
      assert s[0..|sig|][r] == s[r];
      NoOccurrence(s, "{", r, 0);
    }
  }

  // ------------------------------------------------- the generated handler

  /** Scanning `a` in state `c` meets no closing brace and ends in `v`. */
  predicate Leads(c: Scanner, a: string, v: Scanner) {
    Extent(c, a) == None && After(c, a) == v
  }

  lemma {:induction false} ExtentAfter(c: Scanner, a: string, b: string)
    requires Extent(c, a) == None
    ensures Extent(c, a + b) == match Extent(After(c, a), b) case None => None case Some(n) => Some(|a| + n)
    ensures After(c, a + b) == After(After(c, a), b)
    decreases |a|
  {
    if a == "" {
      assert a + b == b;
    } else {
      assert (a + b)[1..] == a[1..] + b;
      AfterCons(c, a);
      AfterCons(c, a + b);
      ExtentAfter(Advance(c, a[0]), a[1..], b);
    }
  }

  lemma LeadsOn(c: Scanner, a: string, v: Scanner, b: string, w: Scanner)
    requires Leads(c, a, v) && Leads(v, b, w)
    ensures Leads(c, a + b, w)
  {
    ExtentAfter(c, a, b);
  }

  lemma {:induction false} QuietLeads(d: int, a: string)
    requires Quiet(a)
    ensures Leads(Code(d), a, Code(d))
  {
    if a != "" {
      assert a[0] !in "{}\"`";
      QuietLeads(d, a[1..]);
      AfterCons(Code(d), a);
    }
  }

  /** Text that can stand inside a string literal as it is. */
  predicate Literal(s: string) {
    forall i | 0 <= i < |s| :: s[i] != '"' && s[i] != '\\'
  }

  lemma {:induction false} LiteralLeads(d: int, a: string)
    requires Literal(a)
    ensures Leads(Quoted(d), a, Quoted(d))
  {
    if a != "" {
      LiteralLeads(d, a[1..]);
      AfterCons(Quoted(d), a);
    }
  }

  lemma QuotedLeads(d: int, a: string)
    requires Literal(a)
    ensures Leads(Code(d), "\"" + a + "\"", Code(d))
  {
    assert After(Code(d), "\"") == Quoted(d) by { AfterCons(Code(d), "\""); }
    assert After(Quoted(d), "\"") == Code(d) by { AfterCons(Quoted(d), "\""); }
    LiteralLeads(d, a);
    LeadsOn(Code(d), "\"", Quoted(d), a, Quoted(d));
    LeadsOn(Code(d), "\"" + a, Quoted(d), "\"", Code(d));
  }

  /** One case of the switch. */
  function CaseText(key: string): string {
    "\n\tcase " + ("\"" + key + "\"") + (":\n\t\treturn " + (key + "Handler") + "(payload)")
  }

  function CasesText(keys: seq<string>): string {
    if keys == [] then "" else CaseText(keys[0]) + CasesText(keys[1..])
  }

  const DEFAULT_CASE: string :=
    "\n\tdefault:\n\t\treturn " + ("\"Unknown function: \"" + (" + functionName\n\t" + ("}" + ("\n" + "}"))))

  const OPEN_SWITCH: string := "\n\tswitch " + "functionName "

  function BodyText(keys: seq<string>): string {
    "{" + (OPEN_SWITCH + ("{" + (CasesText(keys) + DEFAULT_CASE)))
  }

  function HandlerText(keys: seq<string>): string {
    SIGNATURE + (" " + BodyText(keys))
  }

  /** A name that reads as one token of Go text. */
  predicate Name(s: string) {
    forall i | 0 <= i < |s| :: s[i] !in "{}\"`\\"
  }

  lemma {:induction false} CasesLead(d: int, keys: seq<string>)
    requires forall i | 0 <= i < |keys| :: Name(keys[i])
    ensures Leads(Code(d), CasesText(keys), Code(d))
  {
    if keys != [] {
      CaseLeads(d, keys[0]);
      CasesLead(d, keys[1..]);
      LeadsOn(Code(d), CaseText(keys[0]), Code(d), CasesText(keys[1..]), Code(d));
    }
  }

  lemma NameQuiet(key: string)
    requires Name(key)
    ensures Literal(key) && Quiet(":\n\t\treturn " + (key + "Handler") + "(payload)")
  {
    assert Quiet(":\n\t\treturn ") && Quiet("Handler") && Quiet("(payload)");
  }

  lemma CaseLeads(d: int, key: string)
    requires Name(key)
    ensures Leads(Code(d), CaseText(key), Code(d))
  {
    var call := ":\n\t\treturn " + (key + "Handler") + "(payload)";
    NameQuiet(key);
    assert Quiet("\n\tcase ");
    QuietLeads(d, "\n\tcase ");
    QuotedLeads(d, key);
    QuietLeads(d, call);
    LeadsOn(Code(d), "\n\tcase ", Code(d), "\"" + key + "\"", Code(d));
    LeadsOn(Code(d), "\n\tcase " + ("\"" + key + "\""), Code(d), call, Code(d));
  }

  lemma ExtentThrough(c: Scanner, a: string, v: Scanner, b: string)
    requires Leads(c, a, v) && Extent(v, b) == Some(|b|)
    ensures Extent(c, a + b) == Some(|a + b|)
  {
    ExtentAfter(c, a, b);
  }

  lemma BraceLeads(d: int)
    ensures Leads(Code(d), "{", Code(d + 1)) && (d > 1 ==> Leads(Code(d), "}", Code(d - 1)))
    ensures Extent(Code(1), "}") == Some(1)
  {
    AfterCons(Code(d), "{");
    AfterCons(Code(d), "}");
    assert "{"[1..] == "" && "}"[1..] == "";
  }

  lemma TailCloses(a: string, q: string, b: string, e: string)
    requires Quiet(a) && Literal(q) && Quiet(b) && Quiet(e)
    ensures var tail := a + (("\"" + q + "\"") + (b + ("}" + (e + "}")))); Extent(Code(2), tail) == Some(|tail|)
  {
    BraceLeads(1);
    BraceLeads(2);
    QuietLeads(1, e);
    ExtentThrough(Code(1), e, Code(1), "}");
    ExtentThrough(Code(2), "}", Code(1), e + "}");
    QuietLeads(2, b);
    ExtentThrough(Code(2), b, Code(2), "}" + (e + "}"));
    QuotedLeads(2, q);
    ExtentThrough(Code(2), "\"" + q + "\"", Code(2), b + ("}" + (e + "}")));
    QuietLeads(2, a);
    ExtentThrough(Code(2), a, Code(2), ("\"" + q + "\"") + (b + ("}" + (e + "}"))));
  }

  lemma DefaultCloses()
    ensures Extent(Code(2), DEFAULT_CASE) == Some(|DEFAULT_CASE|)
  {
    assert Quiet("\n") && Quiet(" + functionName\n\t") && Quiet("\n\tdefault:\n\t\treturn ");
    assert Literal("Unknown function: ");
    assert "\"Unknown function: \"" == "\"" + "Unknown function: " + "\"";
    TailCloses("\n\tdefault:\n\t\treturn ", "Unknown function: ", " + functionName\n\t", "\n");
  }

  lemma OpenLeads()
    ensures Leads(Code(1), OPEN_SWITCH, Code(1))
  {
    assert Quiet("\n\tswitch ") && Quiet("functionName ");
    QuietLeads(1, OPEN_SWITCH);
  }

  /** The body of every generated handler closes exactly at its last character. */
  lemma BodyExtent(keys: seq<string>, default_: string, open: string)
    requires forall i | 0 <= i < |keys| :: Name(keys[i])
    requires Extent(Code(2), default_) == Some(|default_|) && Leads(Code(1), open, Code(1))
    ensures var body := "{" + (open + ("{" + (CasesText(keys) + default_))); Extent(Code(0), body) == Some(|body|)
  {
    CasesLead(2, keys);
    ExtentThrough(Code(2), CasesText(keys), Code(2), default_);
    var inner := CasesText(keys) + default_;
    BraceLeads(0);
    BraceLeads(1);
    ExtentThrough(Code(1), "{", Code(2), inner);
    ExtentThrough(Code(1), open, Code(1), "{" + inner);
    ExtentThrough(Code(0), "{", Code(1), open + ("{" + inner));
  }

  lemma StartsAt(sig: string, rest: string)
    requires sig != ""
    ensures Index(sig + rest, sig) == 0 && HasPrefix(sig + rest, sig)
  {
    IsPrefix(sig, rest);
  }

  lemma BraceAfter(sig: string, body: string)
    requires Quiet(sig) && body != "" && body[0] == '{'
    ensures Index(sig + (" " + body), "{") == |sig| + 1
  {
    var before, after := sig + " ", body[1..];
    assert sig + (" " + body) == before + "{" + after;
    FirstForeign(before, "{", after);
  }

  lemma BodyOf(sig: string, body: string)
    ensures (sig + (" " + body))[|sig| + 1..] == body
  {
  }

  lemma LocateWhole(sig: string, fn: string, brace: nat)
    requires Index(fn, sig) == 0 && Index(fn, "{") == brace && Extent(Code(0), fn[brace..]) == Some(|fn| - brace)
    ensures Locate(sig, fn) == Ok(Span(0, |fn|))
  {
    assert fn[0..] == fn;
    assert fn[0 + brace..] == fn[brace..];
    LocateAt(sig, fn, 0, brace, Some(|fn| - brace));
  }

  /** A signature, a blank and a body that closes at its end are a handler. */
  lemma HandlerFrom(sig: string, body: string)
    requires Quiet(sig) && sig != "" && body != "" && body[0] == '{' && Extent(Code(0), body) == Some(|body|)
    ensures IsHandler(sig, sig + (" " + body))
  {
    StartsAt(sig, " " + body);
    BraceAfter(sig, body);
    BodyOf(sig, body);
    LocateWhole(sig, sig + (" " + body), |sig| + 1);
  }

  /** For any number of cases, the generated text is a handler. */
  lemma GeneratedIsHandler(keys: seq<string>)
    requires forall i | 0 <= i < |keys| :: Name(keys[i])
    ensures IsHandler(SIGNATURE, HandlerText(keys))
  {
    SignatureQuiet();
    DefaultCloses();
    OpenLeads();
    BodyExtent(keys, DEFAULT_CASE, OPEN_SWITCH);
    HandlerFrom(SIGNATURE, BodyText(keys));
  }
}
