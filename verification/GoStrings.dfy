/** The functions of Go's `strings` package that SPARTA's text processing is
    built from, over sequences of characters. */
module GoStrings {

  /** `sub` stands in `s` at position `i`. */
  predicate OccursAt(s: string, sub: string, i: int) {
    0 <= i <= |s| - |sub| && s[i..i + |sub|] == sub
  }

  predicate HasPrefix(s: string, p: string) {
    OccursAt(s, p, 0)
  }

  predicate HasSuffix(s: string, p: string) {
    OccursAt(s, p, |s| - |p|)
  }

  function TrimPrefix(s: string, p: string): string {
    if HasPrefix(s, p) then s[|p|..] else s
  }

  function TrimSuffix(s: string, p: string): string {
    if HasSuffix(s, p) then s[..|s| - |p|] else s
  }

  function IndexFrom(s: string, sub: string, k: nat): (r: int)
    ensures r == -1 || k <= r
    ensures r == -1 ==> forall i | k <= i :: !OccursAt(s, sub, i)
    ensures r >= 0 ==> OccursAt(s, sub, r) && forall i | k <= i < r :: !OccursAt(s, sub, i)
    decreases |s| - k
  {
    if k + |sub| > |s| then -1
    else if s[k..k + |sub|] == sub then k
    else IndexFrom(s, sub, k + 1)
  }

  /** The first position at which `sub` stands in `s`, or -1. */
  function Index(s: string, sub: string): (r: int)
    ensures r == -1 || 0 <= r <= |s| - |sub|
    ensures r == -1 <==> forall i :: !OccursAt(s, sub, i)
    ensures r >= 0 ==> OccursAt(s, sub, r) && forall i | 0 <= i < r :: !OccursAt(s, sub, i)
  {
    IndexFrom(s, sub, 0)
  }

  predicate Contains(s: string, sub: string) {
    Index(s, sub) >= 0
  }

  function Split(s: string, sep: string): (parts: seq<string>)
    requires sep != ""
    ensures |parts| >= 1
  {
    var i := Index(s, sep);
    if i < 0 then [s] else [s[..i]] + Split(s[i + |sep|..], sep)
  }

  function ReplaceAll(s: string, old_: string, new_: string): string
    requires old_ != ""
  {
    var i := Index(s, old_);
    if i < 0 then s else s[..i] + new_ + ReplaceAll(s[i + |old_|..], old_, new_)
  }

  function Join(parts: seq<string>, sep: string): string {
    if |parts| == 0 then ""
    else if |parts| == 1 then parts[0]
    else parts[0] + sep + Join(parts[1..], sep)
  }

  function TrimLeft(s: string, cut: string): (r: string)
    ensures |r| <= |s|
  {
    if s != "" && s[0] in cut then TrimLeft(s[1..], cut) else s
  }

  function TrimRight(s: string, cut: string): string {
    if s != "" && s[|s| - 1] in cut then TrimRight(s[..|s| - 1], cut) else s
  }

  /** Removes the characters of `cut` from both ends. */
  function Trim(s: string, cut: string): string {
    TrimRight(TrimLeft(s, cut), cut)
  }

  const SPACES: string := " \t\n\r"

  function TrimSpace(s: string): string {
    Trim(s, SPACES)
  }

  // ---------------------------------------------------------------- facts

  /** No character of `cut` at either end: nothing is trimmed. */
  lemma TrimNothing(s: string, cut: string)
    requires s == "" || (s[0] !in cut && s[|s| - 1] !in cut)
    ensures Trim(s, cut) == s
  {
  }

  /** Text that survives trimming. */
  predicate Tight(s: string) {
    s != "" && s[0] !in SPACES && s[|s| - 1] !in SPACES
  }

  lemma TightTrim(s: string)
    requires Tight(s)
    ensures TrimSpace(s) == s
  {
    TrimNothing(s, SPACES);
  }

  predicate AllIn(s: string, cut: string) {
    forall i | 0 <= i < |s| :: s[i] in cut
  }

  lemma {:induction false} TrimLeftPad(pad: string, s: string, cut: string)
    requires AllIn(pad, cut)
    ensures TrimLeft(pad + s, cut) == TrimLeft(s, cut)
  {
    if pad == "" {
      assert pad + s == s;
    } else {
      assert (pad + s)[1..] == pad[1..] + s;
      TrimLeftPad(pad[1..], s, cut);
    }
  }

  lemma {:induction false} TrimRightPad(s: string, pad: string, cut: string)
    requires AllIn(pad, cut)
    ensures TrimRight(s + pad, cut) == TrimRight(s, cut)
  {
    if pad == "" {
      assert s + pad == s;
    } else {
      var n := |pad| - 1;
      assert (s + pad)[..|s + pad| - 1] == s + pad[..n];
      assert (s + pad)[|s + pad| - 1] == pad[n];
      TrimRightPad(s, pad[..n], cut);
    }
  }

  /** Padding made of cut characters disappears; what is between stays when it
      neither starts nor ends with one. */
  lemma TrimPadded(before: string, s: string, after: string, cut: string)
    requires AllIn(before, cut) && AllIn(after, cut)
    requires s != "" && s[0] !in cut && s[|s| - 1] !in cut
    ensures Trim(before + s + after, cut) == s
  {
    assert before + s + after == before + (s + after);
    TrimLeftPad(before, s + after, cut);
    assert TrimLeft(s + after, cut) == s + after;
    TrimRightPad(s, after, cut);
  }

  /** One differing character rules an occurrence out. */
  lemma NoOccurrence(s: string, sub: string, i: int, k: nat)
    requires k < |sub|
    requires 0 <= i + k < |s| ==> s[i + k] != sub[k]
    ensures !OccursAt(s, sub, i)
  {
    assert 0 <= i <= |s| - |sub| ==> s[i..i + |sub|][k] == s[i + k];
  }

  /** If the last character before `sub` is foreign to it and `sub` does not
      occur earlier, the first occurrence is where it is written. */
  lemma FirstOccurrence(a: string, sub: string, b: string)
    requires sub != ""
    requires a == "" || a[|a| - 1] !in sub
    requires !Contains(a, sub)
    ensures Index(a + sub + b, sub) == |a|
  {
    var s := a + sub + b;
    assert OccursAt(s, sub, |a|);
    forall r | 0 <= r < |a| ensures !OccursAt(s, sub, r) {
      if r + |sub| <= |a| {
        assert s[r..r + |sub|] == a[r..r + |sub|];
        assert !OccursAt(a, sub, r);
      } else {
        NoOccurrence(s, sub, r, |a| - 1 - r);
      }
    }
  }

  /** A string whose characters avoid the first character of `sub` does not contain it. */
  lemma ForeignFirst(a: string, sub: string)
    requires sub != "" && sub[0] !in a
    ensures !Contains(a, sub)
  {
    forall i ensures !OccursAt(a, sub, i) {
      NoOccurrence(a, sub, i, 0);
    }
  }

  lemma FirstForeign(a: string, sub: string, b: string)
    requires sub != "" && sub[0] !in a
    ensures Index(a + sub + b, sub) == |a|
  {
    var s := a + sub + b;
    assert OccursAt(s, sub, |a|);
    forall r | 0 <= r < |a| ensures !OccursAt(s, sub, r) {
      assert s[r] == a[r];
      NoOccurrence(s, sub, r, 0);
    }
  }

  /** Starting with a different character rules a prefix out. */
  lemma NotPrefix(s: string, p: string)
    requires p != "" && s != "" && s[0] != p[0]
    ensures !HasPrefix(s, p)
  {
    NoOccurrence(s, p, 0, 0);
  }

  lemma IsPrefix(p: string, rest: string)
    ensures HasPrefix(p + rest, p) && TrimPrefix(p + rest, p) == rest
  {
    assert (p + rest)[0..|p|] == p;
  }

  lemma IsSuffix(s: string, p: string)
    ensures HasSuffix(s + p, p) && TrimSuffix(s + p, p) == s
  {
    assert (s + p)[|s|..|s| + |p|] == p;
  }

  lemma SplitFirst(first: string, sep: string, rest: string)
    requires sep != "" && sep[0] !in first
    ensures Split(first + sep + rest, sep) == [first] + Split(rest, sep)
  {
    var s := first + sep + rest;
    FirstForeign(first, sep, rest);
    assert s[..|first|] == first && s[|first| + |sep|..] == rest;
  }

  /** Cutting a joined list at its separator gives the list back. */
  lemma {:induction false} SplitJoin(parts: seq<string>, sep: string)
    requires sep != "" && |parts| >= 1
    requires forall i | 0 <= i < |parts| :: sep[0] !in parts[i]
    ensures Split(Join(parts, sep), sep) == parts
  {
    if |parts| == 1 {
      ForeignFirst(parts[0], sep);
    } else {
      var rest := Join(parts[1..], sep);
      assert Join(parts, sep) == parts[0] + sep + rest;
      SplitJoin(parts[1..], sep);
      SplitFirst(parts[0], sep, rest);
      assert [parts[0]] + parts[1..] == parts;
    }
  }

  /** Replacement passes over a prefix that contains nothing to replace. */
  lemma ReplaceFirst(a: string, old_: string, new_: string, b: string)
    requires old_ != ""
    requires Index(a + old_ + b, old_) == |a|
    ensures ReplaceAll(a + old_ + b, old_, new_) == a + new_ + ReplaceAll(b, old_, new_)
  {
    var s := a + old_ + b;
    assert s[..|a|] == a;
    assert s[|a| + |old_|..] == b;
  }
}
