/** The text of an aggregation request: a filter in brackets, and a formula. */
module Requests {
  import opened Wrappers
  import opened GoStrings

  datatype Request = Request(filter: string, formula: string)

  /** None: no `],` to split at, or no opening bracket in front of it. */
  function NewParseInput(input: string): Option<Request> {
    var split := Index(input, "],");
    if split < 0 then None
    else
      var left := input[..split] + "]";
      var start := Index(left, "[");
      if start < 0 then None
      else
        assert left[start..start + 1] == "[" && left[|left| - 1] == ']';
        assert left[start] == '[';
        Some(Request(TrimSpace(left[start + 1..|left| - 1]), FormulaPart(TrimSpace(input[split + 2..]))))
  }

  /** Without the name in front of the first colon, and without a closing brace. */
  function FormulaPart(right: string): string {
    var colon := Index(right, ":");
    TrimSuffix(if colon < 0 then right else TrimSpace(right[colon + 1..]), "}")
  }

  /** A request as it is written in an obligation. */
  function RequestText(head: string, filter: string, name: string, gap: string, formula: string): string {
    head + "[" + filter + "]," + (" " + (name + ":" + (gap + (formula + "}"))))
  }

  lemma SplitPoint(head: string, filter: string, rest: string)
    requires ']' !in head && !Contains(filter, "],")
    ensures Index(head + "[" + filter + "]," + rest, "],") == |head| + 1 + |filter|
  {
    var s, n := head + "[" + filter + "]," + rest, |head| + 1 + |filter|;
    assert s[n..n + 2] == "],";
    assert OccursAt(s, "],", n);
    forall r | 0 <= r < n ensures !OccursAt(s, "],", r) {
      if r <= |head| {
        NoOccurrence(s, "],", r, 0);
      } else if r < n - 1 {
        InFilter(head, filter, rest, r);
      } else {
        NoOccurrence(s, "],", r, 1);
      }
    }
  }

  lemma InFilter(head: string, filter: string, rest: string, r: nat)
    requires |head| < r < |head| + |filter| && !Contains(filter, "],")
    ensures !OccursAt(head + "[" + filter + "]," + rest, "],", r)
  {
    var k := r - |head| - 1;
    assert !OccursAt(filter, "],", k);
    assert (head + "[" + filter + "]," + rest)[r..r + 2] == filter[k..k + 2];
  }

  lemma FormulaFound(name: string, gap: string, formula: string)
    requires Tight(name) && ':' !in name && AllIn(gap, SPACES) && Tight(formula)
    ensures FormulaPart(TrimSpace(" " + (name + ":" + (gap + (formula + "}"))))) == formula
  {
    var value := gap + (formula + "}");
    var right := name + ":" + value;
    assert value[|value| - 1] == '}' && right[|right| - 1] == '}' && right[0] == name[0];
    assert " " + right + "" == " " + right;
    TrimPadded(" ", right, "", SPACES);
    FirstForeign(name, ":", value);
    assert right[|name| + 1..] == value;
    assert gap + (formula + "}") + "" == value;
    TrimPadded(gap, formula + "}", "", SPACES);
    IsSuffix(formula, "}");
  }

  /** Filter and formula come back from the text of a request, whatever further brackets
      the filter and whatever colons the formula contain. */
  lemma RequestReadsBack(head: string, filter: string, name: string, gap: string, formula: string)
    requires '[' !in head && ']' !in head && !Contains(filter, "],")
    requires Tight(name) && ':' !in name && AllIn(gap, SPACES) && Tight(formula)
    ensures NewParseInput(RequestText(head, filter, name, gap, formula)) == Some(Request(TrimSpace(filter), formula))
  {
    var rest := " " + (name + ":" + (gap + (formula + "}")));
    SplitPoint(head, filter, rest);
    FormulaFound(name, gap, formula);
    SplitParts(head, filter, rest);
    FilterFound(head, filter);
    var input, n := head + "[" + filter + "]," + rest, |head| + 1 + |filter|;
    ParsedFrom(input, n, head + "[" + (filter + "]"), |head|, filter, formula);
  }

  lemma ParsedFrom(input: string, n: nat, left: string, start: nat, filter: string, formula: string)
    requires Index(input, "],") == n && left == input[..n] + "]"
    requires Index(left, "[") == start && start < |left| - 1 && left[start + 1..|left| - 1] == filter
    requires FormulaPart(TrimSpace(input[n + 2..])) == formula
    ensures NewParseInput(input) == Some(Request(TrimSpace(filter), formula))
  {
  }

  lemma SplitParts(head: string, filter: string, rest: string)
    ensures var input, n := head + "[" + filter + "]," + rest, |head| + 1 + |filter|;
            input[n + 2..] == rest && input[..n] + "]" == head + "[" + (filter + "]")
  {
    var input, n := head + "[" + filter + "]," + rest, |head| + 1 + |filter|;
    assert input[..n] == head + "[" + filter;
    assert head + "[" + filter + "]" == head + "[" + (filter + "]");
  }

  lemma FilterFound(head: string, filter: string)
    requires '[' !in head
    ensures var left := head + "[" + (filter + "]");
            Index(left, "[") == |head| && left[|head| + 1..|left| - 1] == filter
  {
    FirstForeign(head, "[", filter + "]");
  }
}
