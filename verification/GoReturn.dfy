/** The text behind a Go `return`: results with commas between them, where a comma
    inside quotes does not count. */
module GoReturn {
  import opened Wrappers
  import opened Sequences
  import opened GoStrings
  import opened GoExpr

  /** The text between the commas that separate results. */
  function Pieces(s: string): (ps: seq<string>)
    ensures ps != []
  {
    PiecesFrom(s, false)
  }

  /** `quoted`: the text starts inside quotes. */
  function PiecesFrom(s: string, quoted: bool): (ps: seq<string>)
    ensures ps != []
  {
    if s == "" then [""]
    else if s[0] == ',' && !quoted then [""] + PiecesFrom(s[1..], false)
    else
      var ps := PiecesFrom(s[1..], quoted != (s[0] == '"'));
      [[s[0]] + ps[0]] + ps[1..]
  }

  /** Blanks that do not end the line, and with it the statement. */
  predicate IsGap(s: string) {
    AllIn(s, " \t\r")
  }

  /** What Go's lexer sees of one piece. */
  function PieceTokens(piece: string): seq<Token> {
    if IsGap(piece) then []
    else
      match ParseResult(piece)
      case Some(r) => [Out(r)]
      case None => [Junk(piece)]
  }

  function ListTokens(pieces: seq<string>): seq<Token> {
    if pieces == [] then []
    else if |pieces| == 1 then PieceTokens(pieces[0])
    else PieceTokens(pieces[0]) + [Comma] + ListTokens(pieces[1..])
  }

  /** What Go's lexer sees of the entries of a row, joined as they are emitted. */
  function OutTokens(texts: seq<string>): seq<Token> {
    ListTokens(Pieces(Join(texts, ", ")))
  }

  function ReadAll(pieces: seq<string>): (rs: Option<seq<Returned>>)
    ensures rs.Some? ==> |rs.value| == |pieces|
  {
    if pieces == [] then Some([])
    else
      var r, rs := ParseResult(pieces[0]), ReadAll(pieces[1..]);
      if r.Some? && rs.Some? then Some([r.value] + rs.value) else None
  }

  /** The results of a `return` with this list; nothing at all is the empty list. */
  function ReadList(pieces: seq<string>): Option<seq<Returned>> {
    if |pieces| == 1 && IsGap(pieces[0]) then Some([]) else ReadAll(pieces)
  }

  /** The results that a row's entries are as Go reads them. */
  function Results(texts: seq<string>): Option<seq<Returned>> {
    ReadList(Pieces(Join(texts, ", ")))
  }

  /** The part of Go that is modelled here: between the commas stands nothing, a literal
      or one of the named expressions. */
  predicate Written(texts: seq<string>) {
    var ps := Pieces(Join(texts, ", "));
    forall i | 0 <= i < |ps| :: IsGap(ps[i]) || ParseResult(ps[i]).Some?
  }

  // ------------------------------------------------------------ how it parses

  lemma GapTrims(s: string)
    requires IsGap(s)
    ensures TrimSpace(s) == ""
  {
    assert s + "" == s;
    TrimLeftPad(s, "", SPACES);
  }

  lemma GapIsNoResult(s: string)
    requires IsGap(s)
    ensures ParseResult(s).None?
  {
    GapTrims(s);
  }

  lemma OutsMore(r: Returned, more: seq<Token>)
    ensures ParseOuts([Out(r)] + [Comma] + more)
         == match ParseOuts(more)
            case None => None
            case Some(p) => if p.outs == [] then None else Some(ParsedOuts([r] + p.outs, p.rest))
  {
    var ts := [Out(r)] + [Comma] + more;
    assert ts[1..][0] == Comma && ts[2..] == more;
  }

  lemma OutsLast(r: Returned, rest: seq<Token>)
    requires StartsWith(rest, RBrace)
    ensures ParseOuts([Out(r)] + rest) == Some(ParsedOuts([r], rest))
  {
    assert ([Out(r)] + rest)[1..] == rest;
  }

  /** A list of results is read as them. With anything else in it, the reader finds none
      or stops where the first is missing. */
  lemma {:induction false} ListParses(pieces: seq<string>, rest: seq<Token>)
    requires pieces != [] && StartsWith(rest, RBrace)
    ensures ListRead(pieces, ReadAll(pieces), ParseOuts(ListTokens(pieces) + rest), rest)
  {
    if ParseResult(pieces[0]).None? {
      ListStops(pieces, rest);
    } else if |pieces| == 1 {
      ResultTokens(pieces[0]);
      OutsLast(ParseResult(pieces[0]).value, rest);
      assert ReadAll(pieces[1..]) == Some([]);
      assert [ParseResult(pieces[0]).value] + [] == [ParseResult(pieces[0]).value];
    } else {
      var r, more := ParseResult(pieces[0]).value, ListTokens(pieces[1..]);
      ResultTokens(pieces[0]);
      ListParses(pieces[1..], rest);
      Regroup([Out(r)], [Comma], more, rest);
      OutsMore(r, more + rest);
    }
  }

  predicate ListRead(pieces: seq<string>, rs: Option<seq<Returned>>, p: Option<ParsedOuts>, rest: seq<Token>) {
    if rs.Some? then p == Some(ParsedOuts(rs.value, rest)) else p == None || p.value.outs == []
  }

  lemma ResultTokens(piece: string)
    requires ParseResult(piece).Some?
    ensures PieceTokens(piece) == [Out(ParseResult(piece).value)]
  {
    if IsGap(piece) {
      GapIsNoResult(piece);
    }
  }

  /** A list that starts with no result stops the reader in front of the brace, unless it
      is nothing at all. */
  lemma ListStops(pieces: seq<string>, rest: seq<Token>)
    requires pieces != [] && StartsWith(rest, RBrace) && ParseResult(pieces[0]).None?
    ensures var ts := ListTokens(pieces) + rest;
            && ParseOuts(ts) == Some(ParsedOuts([], ts))
            && (StartsWith(ts, RBrace) <==> |pieces| == 1 && IsGap(pieces[0]))
            && (|pieces| == 1 && IsGap(pieces[0]) ==> ts == rest)
  {
    FirstToken(pieces, rest);
    NoOuts(ListTokens(pieces) + rest);
    if |pieces| == 1 && IsGap(pieces[0]) {
      assert [] + rest == rest;
    }
  }

  lemma FirstToken(pieces: seq<string>, rest: seq<Token>)
    requires pieces != [] && StartsWith(rest, RBrace) && ParseResult(pieces[0]).None?
    ensures StartsWith(ListTokens(pieces) + rest,
                       if !IsGap(pieces[0]) then Junk(pieces[0]) else if |pieces| == 1 then RBrace else Comma)
  {
    var first := PieceTokens(pieces[0]);
    if |pieces| > 1 {
      Regroup(first, [Comma], ListTokens(pieces[1..]), rest);
      assert [] + ([Comma] + (ListTokens(pieces[1..]) + rest)) == [Comma] + (ListTokens(pieces[1..]) + rest);
    }
  }

  lemma NoOuts(ts: seq<Token>)
    requires ts != [] && !ts[0].Out?
    ensures ParseOuts(ts) == Some(ParsedOuts([], ts))
  {
  }

  /** What follows `return` up to the closing brace is read as the results, or not at all. */
  lemma ReturnParses(texts: seq<string>, rest: seq<Token>)
    ensures ParseReturn([KwReturn] + OutTokens(texts) + [RBrace] + rest)
         == if Results(texts).Some? then Some(ParsedOuts(Results(texts).value, rest)) else None
  {
    var close, pieces := [RBrace] + rest, Pieces(Join(texts, ", "));
    var ts := [KwReturn] + OutTokens(texts) + [RBrace] + rest;
    assert ts[1..] == ListTokens(pieces) + close;
    ListParses(pieces, close);
    if ParseResult(pieces[0]).None? {
      ListStops(pieces, close);
    } else if IsGap(pieces[0]) {
      GapIsNoResult(pieces[0]);
    }
    assert close[1..] == rest;
  }

  /** The piece is an expression of the package. */
  predicate PieceNames(piece: string, pkg: string) {
    var r := ParseResult(piece);
    r.Some? && r.value.Named? && r.value.pkg == pkg
  }

  predicate TextsName(texts: seq<string>, pkg: string) {
    var ps := Pieces(Join(texts, ", "));
    exists i | 0 <= i < |ps| :: PieceNames(ps[i], pkg)
  }

  // ------------------------------------------------------ entries one by one

  /** Every comma stands inside quotes, and the quotes are closed. */
  predicate ClosedFrom(s: string, quoted: bool) {
    if s == "" then !quoted else (s[0] == ',' ==> quoted) && ClosedFrom(s[1..], quoted != (s[0] == '"'))
  }

  predicate Closed(s: string) {
    ClosedFrom(s, false)
  }

  lemma {:induction false} ClosedPiece(s: string, quoted: bool)
    requires ClosedFrom(s, quoted)
    ensures PiecesFrom(s, quoted) == [s]
  {
    if s != "" {
      ClosedPiece(s[1..], quoted != (s[0] == '"'));
      assert [s[0]] + s[1..] == s;
    }
  }

  lemma {:induction false} ClosedFirst(s: string, quoted: bool, rest: string)
    requires ClosedFrom(s, quoted)
    ensures PiecesFrom(s + ("," + rest), quoted) == [s] + Pieces(rest)
  {
    var all := s + ("," + rest);
    if s == "" {
      assert all == "," + rest && all[1..] == rest;
    } else {
      assert all[0] == s[0] && all[1..] == s[1..] + ("," + rest);
      ClosedFirst(s[1..], quoted != (s[0] == '"'), rest);
      assert [s[0]] + s[1..] == s;
    }
  }

  lemma BlankFirst(s: string)
    ensures Pieces(" " + s) == [" " + Pieces(s)[0]] + Pieces(s)[1..]
  {
    assert (" " + s)[1..] == s && (" " + s)[0] == ' ';
  }

  lemma BlankReads(s: string)
    ensures ParseResult(" " + s) == ParseResult(s) && (IsGap(" " + s) <==> IsGap(s))
  {
    TrimLeftPad(" ", s, SPACES);
    NoBreak(s);
  }

  lemma NoBreak(s: string)
    ensures ('\n' in " " + s <==> '\n' in s) && (IsGap(" " + s) <==> IsGap(s))
  {
    var t := " " + s;
    assert t[1..] == s;
    if IsGap(t) {
      forall i | 0 <= i < |s| ensures s[i] in " \t\r" {
        assert t[i + 1] in " \t\r";
      }
    }
  }

  /** Two lists of pieces that are read alike. */
  predicate Alike(a: seq<string>, b: seq<string>) {
    |a| == |b| && forall i | 0 <= i < |a| :: ParseResult(a[i]) == ParseResult(b[i]) && (IsGap(a[i]) <==> IsGap(b[i]))
  }

  lemma {:induction false} AlikeRead(a: seq<string>, b: seq<string>)
    requires Alike(a, b)
    ensures ReadAll(a) == ReadAll(b) && ReadList(a) == ReadList(b)
  {
    if a != [] {
      AlikeRead(a[1..], b[1..]);
    }
  }

  /** The pieces of joined entries are the entries, but for the blank that the joining
      puts in front. */
  lemma {:induction false} EntriesArePieces(texts: seq<string>)
    requires texts != [] && forall i | 0 <= i < |texts| :: Closed(texts[i])
    ensures Alike(Pieces(Join(texts, ", ")), texts)
  {
    if |texts| == 1 {
      ClosedPiece(texts[0], false);
    } else {
      var rest := Join(texts[1..], ", ");
      assert Join(texts, ", ") == texts[0] + ("," + (" " + rest));
      ClosedFirst(texts[0], false, " " + rest);
      EntriesArePieces(texts[1..]);
      BlankFirst(rest);
      BlankReads(Pieces(rest)[0]);
      AlikeCons(texts[0], [" " + Pieces(rest)[0]] + Pieces(rest)[1..], texts[1..]);
    }
  }

  lemma AlikeCons(first: string, a: seq<string>, texts: seq<string>)
    requires Alike(a, texts)
    ensures Alike([first] + a, [first] + texts)
  {
  }

  lemma {:induction false} ReadAllAt(pieces: seq<string>)
    ensures ReadAll(pieces).Some? <==> forall i | 0 <= i < |pieces| :: ParseResult(pieces[i]).Some?
    ensures ReadAll(pieces).Some? ==>
              forall i | 0 <= i < |pieces| :: ReadAll(pieces).value[i] == ParseResult(pieces[i]).value
  {
    if pieces != [] {
      ReadAllAt(pieces[1..]);
      assert forall i | 0 < i < |pieces| :: pieces[i] == pieces[1..][i - 1];
      assert forall i | 0 <= i < |pieces| - 1 :: pieces[1..][i] == pieces[i + 1];
    }
  }

  lemma EntriesName(texts: seq<string>, pkg: string)
    requires forall i | 0 <= i < |texts| :: Closed(texts[i])
    ensures TextsName(texts, pkg) <==> exists i | 0 <= i < |texts| :: PieceNames(texts[i], pkg)
  {
    if texts == [] {
      GapIsNoResult("");
    } else {
      EntriesArePieces(texts);
      var ps := Pieces(Join(texts, ", "));
      assert forall i | 0 <= i < |ps| :: PieceNames(ps[i], pkg) <==> PieceNames(texts[i], pkg);
    }
  }

  /** One entry can hold several results. */
  lemma CommaSplits()
    ensures Results(["1, 2"]) == Some([Known(Num(1.0)), Known(Num(2.0))])
  {
    assert "1, 2" == "1" + ("," + " 2");
    assert Join(["1, 2"], ", ") == "1" + ("," + " 2");
    ClosedFirst("1", false, " 2");
    ClosedPiece(" 2", false);
    NumeralReads("1", 1);
    NumeralReads("2", 2);
    assert " " + "2" == " 2";
    BlankReads("2");
    TwoRead("1", " 2");
  }

  lemma TwoRead(a: string, b: string)
    requires ParseResult(a).Some? && ParseResult(b).Some?
    ensures ReadList([a] + [b]) == Some([ParseResult(a).value, ParseResult(b).value])
  {
    var x, y := ParseResult(a).value, ParseResult(b).value;
    ReadCons(b, []);
    assert [b] + [] == [b] && [y] + [] == [y];
    ReadCons(a, [b]);
    assert [x] + [y] == [x, y];
  }

  lemma ReadCons(piece: string, pieces: seq<string>)
    requires ParseResult(piece).Some? && ReadAll(pieces).Some?
    ensures ReadAll([piece] + pieces) == Some([ParseResult(piece).value] + ReadAll(pieces).value)
  {
    assert ([piece] + pieces)[1..] == pieces;
  }

  lemma NumeralReads(s: string, n: nat)
    requires |s| == 1 && 0 < n < 10 && s[0] as int == '0' as int + n
    ensures ParseResult(s) == Some(Known(Num(n as real)))
  {
    TightTrim(s);
    NotPrefix(s, "-");
    assert s[..0] == "" && DigitsValue("") == 0;
    assert DigitsValue(s) == n;
    assert Index(s, ".") == -1 by {
      forall i ensures !OccursAt(s, ".", i) {
        NoOccurrence(s, ".", i, 0);
      }
    }
    assert DecimalValue(false, s, "") == n as real;
    assert ParseNumber(s) == Some(n as real);
  }

  predicate EntryFits(text: string, typ: GoType) {
    ParseResult(text).Some? && ResultFits(ParseResult(text).value, typ)
  }

  /** Entries in which no comma stands outside of quotes fit exactly if there is one for
      each result, none is blank, and each is of the result's type. */
  lemma EntriesFitIff(texts: seq<string>, results: seq<GoType>)
    requires |texts| <= |results| && forall i | 0 <= i < |texts| :: Closed(texts[i])
    ensures TextsFit(texts, results) <==>
            |texts| == |results| && forall i | 0 <= i < |texts| :: EntryFits(texts[i], results[i])
    ensures TextsFit(texts, results) ==>
              forall i | 0 <= i < |texts| :: Results(texts).value[i] == ParseResult(texts[i]).value
  {
    if texts != [] {
      EntriesArePieces(texts);
      AlikeRead(Pieces(Join(texts, ", ")), texts);
      ReadAllAt(texts);
      if |texts| == 1 && IsGap(texts[0]) {
        GapIsNoResult(texts[0]);
      }
    }
  }

  /** The entries, joined as they are emitted, are results of these types. */
  predicate TextsFit(texts: seq<string>, results: seq<GoType>) {
    Results(texts).Some? && ResultsFit(Results(texts).value, results)
  }
}
