/** Identifiers in text. */
module Identifiers {

  predicate IdentChar(c: char) {
    'a' <= c <= 'z' || 'A' <= c <= 'Z' || '0' <= c <= '9' || c == '_'
  }

  predicate Ident(s: string) {
    s != "" && forall i | 0 <= i < |s| :: IdentChar(s[i])
  }

  /** The identifier a text starts with. */
  function Head(s: string): (h: string)
    ensures h <= s
    ensures |h| < |s| ==> !IdentChar(s[|h|])
    ensures forall i | 0 <= i < |h| :: IdentChar(h[i])
  {
    if s == "" || !IdentChar(s[0]) then "" else [s[0]] + Head(s[1..])
  }

  lemma {:induction false} HeadIs(w: string, b: string)
    requires (forall i | 0 <= i < |w| :: IdentChar(w[i])) && (b != "" ==> !IdentChar(b[0]))
    ensures Head(w + b) == w
  {
    if w == "" {
      assert w + b == b;
    } else {
      assert (w + b)[1..] == w[1..] + b;
      HeadIs(w[1..], b);
    }
  }
}
