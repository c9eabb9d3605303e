/** The registry of generated decision functions: a Go file that every run of the
    compiler reads back, extends and writes again. The file is its lines. */
module DecisionRegistry {
  import opened Wrappers
  import opened GoStrings
  import opened Identifiers
  import opened Ordering

  type Entries = map<string, string>

  datatype Entry = Entry(method_: string, receiver: string)

  // ------------------------------------------------------------------ text

  const REGISTRY_NAME: string := "DecisionRegistry"

  const HEADER: seq<string> := [
    "package decisionfunctions",
    "",
    "// Auto-generated. DO NOT EDIT.",
    "// Maps decision method " + "name -> receiver instance.",
    "var " + REGISTRY_NAME + " = map[string]interface{}{"]

  /** A method name that `%q` prints as it is. */
  predicate Printable(s: string) {
    s != "" && forall i | 0 <= i < |s| :: s[i] != '"' && s[i] != '\\' && s[i] != '\n'
  }

  function EntryLine(e: Entry): string {
    "\t\"" + (e.method_ + ("\": " + (e.receiver + "{},")))
  }

  function EntryLines(keys: seq<string>, m: Entries): seq<string>
    requires forall i | 0 <= i < |keys| :: keys[i] in m
  {
    if keys == [] then []
    else EntryLines(keys[..|keys| - 1], m) + [EntryLine(Entry(keys[|keys| - 1], m[keys[|keys| - 1]]))]
  }

  /** The file that is written for a registry: its entries sorted by method. */
  ghost predicate IsFileOf(file: seq<string>, m: Entries) {
    exists keys :: IsFileWith(file, m, keys)
  }

  ghost predicate IsFileWith(file: seq<string>, m: Entries, keys: seq<string>) {
    Lists(keys, m) && file == HEADER + EntryLines(keys, m) + ["}"]
  }

  ghost predicate Lists(keys: seq<string>, m: Entries) {
    Sorted(keys) && (forall i | 0 <= i < |keys| :: keys[i] in m) && forall k | k in m :: k in keys
  }

  // ----------------------------------------------------------------- reading

  /** What follows the receiver: braces, and perhaps a comma. */
  predicate EndsEntry(s: string) {
    var u := TrimLeft(s, SPACES);
    HasPrefix(u, "{}") && TrimLeft(TrimPrefix(TrimLeft(u[2..], SPACES), ","), SPACES) == ""
  }

  function MatchReceiver(s: string): Option<string> {
    var t := TrimLeft(s, SPACES);
    var receiver := Head(t);
    if receiver == "" || '0' <= receiver[0] <= '9' || !EndsEntry(t[|receiver|..]) then None else Some(receiver)
  }

  /** The regular expression of the source on one line. */
  function MatchEntry(line: string): Option<Entry> {
    var s := TrimLeft(line, SPACES);
    if s == "" || s[0] != '"' then None
    else
      var end := Index(s[1..], "\"");
      if end <= 0 then None
      else
        match MatchValue(s[end + 2..])
        case None => None
        case Some(receiver) => Some(Entry(s[1..end + 1], receiver))
  }

  function MatchValue(s: string): Option<string> {
    var rest := TrimLeft(s, SPACES);
    if HasPrefix(rest, ":") then MatchReceiver(rest[1..]) else None
  }

  type Matcher = string -> Option<Entry>

  /** The entries that a matcher finds, line by line. */
  function Found(f: Matcher, lines: seq<string>): seq<Entry> {
    if lines == [] then []
    else Found(f, lines[..|lines| - 1]) + (match f(lines[|lines| - 1]) case None => [] case Some(e) => [e])
  }

  function Matches(lines: seq<string>): seq<Entry> {
    Found(MatchEntry, lines)
  }

  function Collected(entries: seq<Entry>): Entries {
    if entries == [] then map[]
    else Collected(entries[..|entries| - 1])[entries[|entries| - 1].method_ := entries[|entries| - 1].receiver]
  }

  predicate Mentions(lines: seq<string>) {
    exists i | 0 <= i < |lines| :: Contains(lines[i], REGISTRY_NAME)
  }

  /** None: the file mentions the registry but no entry is recognised. */
  function ParseExisting(lines: seq<string>): Option<Entries> {
    if Mentions(lines) && Matches(lines) == [] then None else Some(Collected(Matches(lines)))
  }

  method ParseExistingRegistry(lines: seq<string>) returns (r: Option<Entries>)
    ensures r == ParseExisting(lines)
  {
    var matches := Matches(lines);
    if Mentions(lines) && |matches| == 0 {
      return None;
    }
    var out := map[];
    for i := 0 to |matches|
      invariant out == Collected(matches[..i])
    {
      assert matches[..i + 1][..i] == matches[..i];
      out := out[matches[i].method_ := matches[i].receiver];
    }
    assert matches[..|matches|] == matches;
    r := Some(out);
  }

  // ----------------------------------------------------------------- the file

  class RegistryFile {
    var file: Option<seq<string>>

    constructor ()
      ensures file == None
    {
      file := None;
    }

    /** One run: the new entries are merged over those in the file. A file that does
        not parse is left alone. */
    method WriteAccumulating(newEntries: Entries) returns (ok: bool)
      modifies this
      ensures ok <==> old(file) == None || ParseExisting(old(file).value).Some?
      ensures !ok ==> file == old(file)
      ensures ok ==> file.Some? && IsFileOf(file.value, Merged(old(file), newEntries))
    {
      var existing: Entries := map[];
      if file.Some? {
        var parsed := ParseExistingRegistry(file.value);
        if parsed == None {
          return false;
        }
        existing := parsed.value;
      }
      var merged := MergeEntries(existing, newEntries);
      var keys := SortKeys(merged.Keys);
      var lines := [];
      forall i | 0 <= i < |keys| ensures keys[i] in merged {
        assert keys[i] in keys;
      }
      for i := 0 to |keys|
        invariant lines == EntryLines(keys[..i], merged)
      {
        assert keys[..i + 1][..i] == keys[..i];
        lines := lines + [EntryLine(Entry(keys[i], merged[keys[i]]))];
      }
      assert keys[..|keys|] == keys;
      file := Some(HEADER + lines + ["}"]);
      assert merged == Merged(old(file), newEntries);
      assert IsFileWith(file.value, merged, keys);
      ok := true;
    }
  }

  method MergeEntries(base: Entries, more: Entries) returns (m: Entries)
    ensures m == base + more
  {
    m := base;
    var left := more.Keys;
    while left != {}
      invariant left <= more.Keys
      invariant m.Keys == base.Keys + (more.Keys - left)
      invariant forall k | k in m :: m[k] == if k in more && k !in left then more[k] else base[k]
      decreases left
    {
      var k :| k in left;
      m := m[k := more[k]];
      left := left - {k};
    }
  }

  function Merged(file: Option<seq<string>>, newEntries: Entries): Entries {
    match file
    case None => newEntries
    case Some(lines) =>
      match ParseExisting(lines)
      case None => newEntries
      case Some(m) => m + newEntries
  }

  // -------------------------------------------------------------- round trips

  predicate ReceiverOk(s: string) {
    Ident(s) && !('0' <= s[0] <= '9')
  }

  lemma BareTail()
    ensures EndsEntry("{},")
  {
    assert "{},"[0..2] == "{}" && "{},"[2..] == ",";
    assert TrimPrefix(",", ",") == "" by { assert ","[0..1] == ","; }
  }

  lemma ReceiverMatches(receiver: string)
    requires ReceiverOk(receiver)
    ensures MatchReceiver(" " + (receiver + "{},")) == Some(receiver)
  {
    var t := receiver + "{},";
    assert IdentChar(receiver[0]);
    assert (" " + t)[1..] == t && t[0] == receiver[0];
    assert t[0] !in SPACES && ' ' in SPACES;
    assert TrimLeft(" " + t, SPACES) == t;
    HeadIs(receiver, "{},");
    assert t[|receiver|..] == "{},";
    BareTail();
  }

  lemma MatchIsReceiver(s: string)
    ensures MatchReceiver(s).Some? ==> ReceiverOk(MatchReceiver(s).value)
  {
  }

  lemma ValueMatches(rest: string)
    ensures MatchValue(":" + rest) == MatchReceiver(rest)
  {
    var tail := ":" + rest;
    assert tail[0..1] == ":" && tail[1..] == rest;
  }

  lemma NameMatches(name: string, tail: string)
    requires name != "" && '"' !in name
    ensures MatchEntry("\t\"" + (name + ("\"" + tail)))
         == match MatchValue(tail) case None => None case Some(r) => Some(Entry(name, r))
  {
    var s := "\"" + (name + ("\"" + tail));
    var line := "\t" + s;
    assert line == "\t\"" + (name + ("\"" + tail));
    assert line[1..] == s && line[0] == '\t' && s[0] == '"';
    assert TrimLeft(line, SPACES) == s;
    assert s[1..] == name + "\"" + tail;
    FirstForeign(name, "\"", tail);
    var end := |name|;
    assert s[1..end + 1] == name && s[end + 2..] == tail;
  }

  /** An entry is read back from its line exactly if its receiver is an identifier. */
  lemma EntryReadsBack(e: Entry)
    requires Printable(e.method_)
    ensures MatchEntry(EntryLine(e)) == Some(e) <==> ReceiverOk(e.receiver)
  {
    var rest := " " + (e.receiver + "{},");
    assert "\": " + (e.receiver + "{},") == "\"" + (":" + rest);
    NameMatches(e.method_, ":" + rest);
    ValueMatches(rest);
    MatchIsReceiver(rest);
    if ReceiverOk(e.receiver) {
      ReceiverMatches(e.receiver);
    }
  }

  ghost predicate Good(m: Entries) {
    forall k | k in m :: Printable(k) && ReceiverOk(m[k])
  }

  lemma NotQuoted(line: string)
    requires line == "" || (line[0] !in SPACES && line[0] != '"')
    ensures MatchEntry(line) == None
  {
  }

  lemma MatchesAppend(lines: seq<string>, last: string)
    ensures Matches(lines + [last]) == Matches(lines) + (match MatchEntry(last) case None => [] case Some(e) => [e])
  {
    assert (lines + [last])[..|lines|] == lines;
  }

  lemma HeaderHasNone()
    ensures Matches(HEADER) == []
  {
    var a, b, c, d, e := HEADER[0], HEADER[1], HEADER[2], HEADER[3], HEADER[4];
    NotQuoted(a);
    NotQuoted(b);
    NotQuoted(c);
    NotQuoted(d);
    NotQuoted(e);
    assert HEADER == [] + [a] + [b] + [c] + [d] + [e];
    assert Matches([]) == [];
    MatchesAppend([], a);
    MatchesAppend([] + [a], b);
    MatchesAppend([] + [a] + [b], c);
    MatchesAppend([] + [a] + [b] + [c], d);
    MatchesAppend([] + [a] + [b] + [c] + [d], e);
  }

  function EntriesOf(keys: seq<string>, m: Entries): seq<Entry>
    requires forall i | 0 <= i < |keys| :: keys[i] in m
  {
    seq(|keys|, i requires 0 <= i < |keys| => Entry(keys[i], m[keys[i]]))
  }

  lemma {:induction false} FoundEach(f: Matcher, head: seq<string>, lines: seq<string>, entries: seq<Entry>)
    requires Found(f, head) == [] && |lines| == |entries|
    requires forall i | 0 <= i < |lines| :: f(lines[i]) == Some(entries[i])
    ensures Found(f, head + lines) == entries
    decreases |lines|
  {
    if lines == [] {
      assert head + lines == head;
    } else {
      var n := |lines| - 1;
      FoundEach(f, head, lines[..n], entries[..n]);
      assert (head + lines)[..|head| + n] == head + lines[..n];
      assert entries == entries[..n] + [entries[n]];
    }
  }

  lemma {:induction false} LinesOfEntries(keys: seq<string>, m: Entries)
    requires forall i | 0 <= i < |keys| :: keys[i] in m
    ensures |EntryLines(keys, m)| == |keys|
    ensures forall i | 0 <= i < |keys| :: EntryLines(keys, m)[i] == EntryLine(EntriesOf(keys, m)[i])
    decreases |keys|
  {
    if keys != [] {
      LinesOfEntries(keys[..|keys| - 1], m);
    }
  }

  lemma LinesMatch(head: seq<string>, keys: seq<string>, m: Entries)
    requires Good(m) && Matches(head) == [] && forall i | 0 <= i < |keys| :: keys[i] in m
    ensures Matches(head + EntryLines(keys, m)) == EntriesOf(keys, m)
  {
    LinesOfEntries(keys, m);
    forall i | 0 <= i < |keys| ensures MatchEntry(EntryLines(keys, m)[i]) == Some(EntriesOf(keys, m)[i]) {
      EntryReadsBack(EntriesOf(keys, m)[i]);
    }
    FoundEach(MatchEntry, head, EntryLines(keys, m), EntriesOf(keys, m));
  }

  lemma {:induction false} CollectedIs(keys: seq<string>, m: Entries)
    requires forall i | 0 <= i < |keys| :: keys[i] in m
    ensures var c := Collected(EntriesOf(keys, m)); forall k :: (k in c <==> k in keys) && (k in c ==> c[k] == m[k])
    decreases |keys|
  {
    if keys != [] {
      var n := |keys| - 1;
      CollectedIs(keys[..n], m);
      assert EntriesOf(keys, m)[..n] == EntriesOf(keys[..n], m);
      assert keys == keys[..n] + [keys[n]];
    }
  }

  lemma FileMentions(lines: seq<string>)
    requires HEADER <= lines
    ensures Mentions(lines)
  {
    var line, before, after := HEADER[4], "var ", " = map[string]interface{}{";
    assert line == before + REGISTRY_NAME + after;
    assert line[4..4 + |REGISTRY_NAME|] == REGISTRY_NAME;
    assert OccursAt(line, REGISTRY_NAME, 4);
    assert lines[4] == line;
  }

  /** Reading a written registry gives it back, unless it is empty: then the file is
      taken for a damaged one. */
  lemma FileReadsBack(file: seq<string>, m: Entries)
    requires Good(m) && IsFileOf(file, m)
    ensures ParseExisting(file) == if m == map[] then None else Some(m)
  {
    var keys :| IsFileWith(file, m, keys);
    HeaderHasNone();
    LinesMatch(HEADER, keys, m);
    NotQuoted("}");
    MatchesAppend(HEADER + EntryLines(keys, m), "}");
    assert Matches(file) == EntriesOf(keys, m);
    FileMentions(file);
    CollectedIs(keys, m);
    NoKeys(keys, m);
    assert Collected(EntriesOf(keys, m)) == m;
  }

  lemma NoKeys(keys: seq<string>, m: Entries)
    requires Lists(keys, m)
    ensures keys == [] <==> m == map[]
  {
    if m != map[] {
      var k :| k in m;
      assert k in keys;
    }
    if keys != [] {
      assert keys[0] in m;
    }
  }

  /** A file is the file of one registry only. */
  lemma FileOfOne(file: seq<string>, m: Entries, m': Entries)
    requires Good(m) && Good(m') && IsFileOf(file, m) && IsFileOf(file, m')
    ensures m == m'
  {
    FileReadsBack(file, m);
    FileReadsBack(file, m');
  }

  lemma FileOf(file: seq<string>, m: Entries, m': Entries)
    requires Good(m) && Good(m') && IsFileOf(file, m)
    ensures IsFileOf(file, m') <==> m == m'
  {
    if IsFileOf(file, m') {
      FileOfOne(file, m, m');
    }
  }

  // ---------------------------------------------------------------- many runs

  /** What a run of the compiler may leave behind. */
  ghost predicate RunLeaves(before: Option<seq<string>>, newEntries: Entries, after: Option<seq<string>>) {
    if before == None || ParseExisting(before.value).Some?
    then after.Some? && IsFileOf(after.value, Merged(before, newEntries))
    else after == before
  }

  ghost predicate RunsLeave(runs: seq<Entries>, files: seq<Option<seq<string>>>) {
    && |files| == |runs| + 1 && files[0] == None
    && forall i {:trigger runs[i]} | 0 <= i < |runs| :: RunLeaves(files[i], runs[i], files[i + 1])
  }

  /** All entries, later runs winning. */
  function Union(runs: seq<Entries>): Entries {
    if runs == [] then map[] else Union(runs[..|runs| - 1]) + runs[|runs| - 1]
  }

  lemma {:induction false} UnionGood(runs: seq<Entries>)
    requires forall i | 0 <= i < |runs| :: Good(runs[i])
    ensures Good(Union(runs)) && (runs != [] && runs[0] != map[] ==> Union(runs) != map[])
    decreases |runs|
  {
    if runs != [] {
      var n := |runs| - 1;
      UnionGood(runs[..n]);
      assert Good(runs[n]);
      if runs[0] != map[] {
        if n == 0 {
          var k :| k in runs[0];
          assert k in Union(runs);
        } else {
          assert runs[..n][0] == runs[0];
          var k :| k in Union(runs[..n]);
          assert k in Union(runs);
        }
      }
    }
  }

  /** What the file holds in the end. */
  function Held(runs: seq<Entries>): Entries
    requires runs != []
  {
    if runs[0] == map[] then map[] else Union(runs)
  }

  lemma {:induction false} RunsAccumulate(runs: seq<Entries>, files: seq<Option<seq<string>>>)
    requires runs != [] && RunsLeave(runs, files) && forall i | 0 <= i < |runs| :: Good(runs[i])
    ensures files[|runs|].Some?
    ensures IsFileOf(files[|runs|].value, Held(runs))
    decreases |runs|
  {
    var n := |runs| - 1;
    assert RunLeaves(files[n], runs[n], files[n + 1]);
    if n == 0 {
      assert runs[..0] == [];
      assert Union(runs) == runs[0];
    } else {
      var before, earlier := runs[..n], files[..n + 1];
      forall i | 0 <= i < n ensures RunLeaves(earlier[i], before[i], earlier[i + 1]) {
        assert RunLeaves(files[i], runs[i], files[i + 1]);
      }
      RunsAccumulate(before, earlier);
      UnionGood(before);
      FileReadsBack(files[n].value, Held(before));
    }
  }

  lemma HeldIsUnion(runs: seq<Entries>)
    requires runs != [] && forall i | 0 <= i < |runs| :: Good(runs[i])
    ensures Good(Held(runs)) && Good(Union(runs))
    ensures Held(runs) == Union(runs) <==> runs[0] != map[] || Union(runs) == map[]
  {
    UnionGood(runs);
  }

  ghost predicate Holds(file: Option<seq<string>>, m: Entries) {
    file.Some? && IsFileOf(file.value, m)
  }

  lemma FileOfHeld(held: Entries, union: Entries, file: Option<seq<string>>, same: bool)
    requires Good(held) && Good(union) && Holds(file, held) && (held == union <==> same)
    ensures Holds(file, union) <==> same
  {
    FileOf(file.value, held, union);
  }

  lemma RunsHold(runs: seq<Entries>, files: seq<Option<seq<string>>>)
    requires runs != [] && RunsLeave(runs, files) && forall i | 0 <= i < |runs| :: Good(runs[i])
    ensures Holds(files[|runs|], Held(runs))
  {
    RunsAccumulate(runs, files);
  }

  /** After any number of runs that start without a file, the registry holds all their
      entries, sorted and with later runs winning, exactly if the first run had an entry
      or none of them did: after a first run without decisions, every later run fails. */
  lemma RegistryIsUnion(runs: seq<Entries>, files: seq<Option<seq<string>>>)
    requires runs != [] && RunsLeave(runs, files) && forall i | 0 <= i < |runs| :: Good(runs[i])
    ensures Holds(files[|runs|], Union(runs)) <==> runs[0] != map[] || Union(runs) == map[]
  {
    RunsHold(runs, files);
    HeldIsUnion(runs);
    FileOfHeld(Held(runs), Union(runs), files[|runs|], runs[0] != map[] || Union(runs) == map[]);
  }
}
