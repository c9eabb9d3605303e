/** The compiler preserves the meaning of decision tables. */
module DmnCorrect {
  import opened Wrappers
  import opened GoExpr
  import opened GoCondition
  import opened DmnTable
  import opened DmnCompiler
  import opened DmnText
  import opened DmnCells

  // ------------------------------------------------------ the table as a file

  function ColumnInputs(columns: seq<Column>): (r: seq<Input>)
    ensures |r| == |columns|
    ensures forall i | 0 <= i < |r| :: r[i] == Input(columns[i].name, columns[i].typeRef)
  {
    seq(|columns|, i requires 0 <= i < |columns| => Input(columns[i].name, columns[i].typeRef))
  }

  function CellTexts(row: Row, columns: seq<Column>): (r: seq<string>)
    requires CellsWf(row, columns)
    ensures |r| == |row.cells|
    ensures forall i | 0 <= i < |r| :: r[i] == Text(row.cells[i], columns[i].typeRef)
  {
    seq(|row.cells|, i requires 0 <= i < |row.cells| => Text(row.cells[i], columns[i].typeRef))
  }

  function FileRow(row: Row, columns: seq<Column>): Rule
    requires CellsWf(row, columns)
  {
    Rule(CellTexts(row, columns), row.outs)
  }

  function FileRows(rows: seq<Row>, columns: seq<Column>): (r: seq<Rule>)
    requires forall k | 0 <= k < |rows| :: CellsWf(rows[k], columns)
    ensures |r| == |rows| && forall k | 0 <= k < |r| :: r[k] == FileRow(rows[k], columns)
  {
    if rows == [] then [] else [FileRow(rows[0], columns)] + FileRows(rows[1..], columns)
  }

  function FileOutputs(outputs: seq<OutColumn>): (r: seq<Output>)
    ensures |r| == |outputs| && forall i | 0 <= i < |r| :: r[i] == Output(outputs[i].typeRef)
  {
    if outputs == [] then [] else [Output(outputs[0].typeRef)] + FileOutputs(outputs[1..])
  }

  /** The decision table as the file holds it. */
  function File(t: Table): (d: DecisionTable)
    requires Supported(t)
    ensures Indexable(d)
  {
    DecisionTable(ColumnInputs(t.columns), FileOutputs(t.outputs), FileRows(t.rows, t.columns))
  }

  /** The conditions map that the compiler builds for a row. */
  function RowMap(row: Row, columns: seq<Column>): map<string, string>
    requires CellsWf(row, columns)
  {
    EntryMap(ColumnInputs(columns), CellTexts(row, columns))
  }

  /** The map holds the cells of the row, and nothing else. */
  ghost predicate MapsRow(m: map<string, string>, row: Row, columns: seq<Column>)
    requires CellsWf(row, columns)
  {
    && (forall i | 0 <= i < |row.cells| :: columns[i].name in m
          && m[columns[i].name] == Text(row.cells[i], columns[i].typeRef) + "|" + columns[i].typeRef)
    && (forall key | key in m :: exists i :: 0 <= i < |row.cells| && columns[i].name == key)
  }

  lemma {:induction false} EntryMapAt(inputs: seq<Input>, entries: seq<string>)
    requires |entries| <= |inputs|
    requires forall i, j | 0 <= i < j < |inputs| :: inputs[i].name != inputs[j].name
    ensures forall i | 0 <= i < |entries| :: inputs[i].name in EntryMap(inputs, entries)
              && EntryMap(inputs, entries)[inputs[i].name] == entries[i] + "|" + inputs[i].typeRef
    ensures forall k | k in EntryMap(inputs, entries) :: exists i :: 0 <= i < |entries| && inputs[i].name == k
    decreases |entries|
  {
    if entries != [] {
      EntryMapAt(inputs, entries[..|entries| - 1]);
    }
  }

  lemma RowMapMaps(row: Row, columns: seq<Column>)
    requires CellsWf(row, columns) && ColumnsWf(columns)
    ensures MapsRow(RowMap(row, columns), row, columns)
  {
    var inputs, entries := ColumnInputs(columns), CellTexts(row, columns);
    EntryMapAt(inputs, entries);
    assert forall i | 0 <= i < |row.cells| :: inputs[i].name == columns[i].name;
  }

  // ------------------------------------------------------------ one condition

  /** The labels of the row's cells. */
  function RowNames(row: Row, columns: seq<Column>): (names: seq<string>)
    requires |row.cells| <= |columns|
    ensures |names| == |row.cells| && forall i | 0 <= i < |names| :: names[i] == columns[i].name
  {
    seq(|row.cells|, i requires 0 <= i < |row.cells| => columns[i].name)
  }

  ghost function Position(key: string, names: seq<string>): (i: nat)
    requires key in names
    ensures i < |names| && names[i] == key
  {
    var i :| 0 <= i < |names| && names[i] == key;
    i
  }

  ghost function Positions(order: seq<string>, names: seq<string>): (r: seq<nat>)
    requires forall k | 0 <= k < |order| :: order[k] in names
    ensures |r| == |order|
    ensures forall k | 0 <= k < |r| :: r[k] == Position(order[k], names)
  {
    if order == [] then [] else [Position(order[0], names)] + Positions(order[1..], names)
  }

  lemma PositionsCover(order: seq<string>, names: seq<string>)
    requires forall k | 0 <= k < |order| :: order[k] in names
    requires forall j, k | 0 <= j < k < |order| :: order[j] != order[k]
    requires forall i, j | 0 <= i < j < |names| :: names[i] != names[j]
    requires forall i | 0 <= i < |names| :: names[i] in order
    ensures Covers(Positions(order, names), |names|)
  {
    var cols := Positions(order, names);
    forall i | 0 <= i < |names| ensures i in cols {
      assert names[i] in order;
      var k :| 0 <= k < |order| && order[k] == names[i];
      assert cols[k] == i;
    }
  }

  /** The column of a key of the row's map. */
  ghost function ColumnOf(key: string, m: map<string, string>, row: Row, columns: seq<Column>): (i: nat)
    requires CellsWf(row, columns) && MapsRow(m, row, columns) && key in m
    ensures i < |row.cells| && columns[i].name == key
  {
    Position(key, RowNames(row, columns))
  }

  ghost function Part(key: string, row: Row, columns: seq<Column>, i: nat): seq<Group>
    requires CellsWf(row, columns) && i < |row.cells|
  {
    if row.cells[i] == Blank then [] else CellGroups(key, row.cells[i], columns[i].typeRef)
  }

  ghost predicate KeysOf(order: seq<string>, m: map<string, string>) {
    forall k | 0 <= k < |order| :: order[k] in m
  }

  /** What the cells say, in the order in which the map yields them. */
  ghost function Parts(order: seq<string>, m: map<string, string>, row: Row, columns: seq<Column>): (r: seq<seq<Group>>)
    requires CellsWf(row, columns) && MapsRow(m, row, columns) && KeysOf(order, m)
    ensures |r| == |order|
    ensures forall k | 0 <= k < |r| :: r[k] == Part(order[k], row, columns, ColumnOf(order[k], m, row, columns))
  {
    seq(|order|, k requires 0 <= k < |order| => Part(order[k], row, columns, ColumnOf(order[k], m, row, columns)))
  }

  lemma EntryCompiles(key: string, m: map<string, string>, row: Row, columns: seq<Column>)
    requires CellsWf(row, columns) && ColumnsWf(columns) && MapsRow(m, row, columns) && key in m
    ensures EntryCondition(key, m[key])
         == var part := Part(key, row, columns, ColumnOf(key, m, row, columns));
            if part == [] then [] else Tokens(part)
  {
    var i := ColumnOf(key, m, row, columns);
    EntrySplits(row.cells[i], columns[i].typeRef);
    if row.cells[i] != Blank {
      CellCompiles(key, row.cells[i], columns[i].typeRef);
    }
  }

  lemma TokensNonEmpty(gs: seq<Group>)
    requires gs != []
    ensures Tokens(gs) != []
  {
  }

  /** The entry of the key is emitted as this part, or as nothing. */
  ghost predicate EmittedAs(key: string, m: map<string, string>, part: seq<Group>) {
    && key in m
    && EntryCondition(key, m[key]) == (if part == [] then [] else Tokens(part))
    && (part != [] ==> Tokens(part) != [])
  }

  lemma {:induction false} PartsCompile(order: seq<string>, m: map<string, string>, parts: seq<seq<Group>>)
    requires |order| == |parts| && forall k | 0 <= k < |order| :: EmittedAs(order[k], m, parts[k])
    ensures KeysOf(order, m) && Conditions(order, m) == PartTokens(parts)
    decreases |order|
  {
    forall i | 0 <= i < |order| ensures order[i] in m {
      assert EmittedAs(order[i], m, parts[i]);
    }
    if order != [] {
      PartsCompile(order[1..], m, parts[1..]);
      assert EmittedAs(order[0], m, parts[0]);
    }
  }

  lemma EntryEmitted(key: string, m: map<string, string>, row: Row, columns: seq<Column>)
    requires CellsWf(row, columns) && ColumnsWf(columns) && MapsRow(m, row, columns) && key in m
    ensures EmittedAs(key, m, Part(key, row, columns, ColumnOf(key, m, row, columns)))
  {
    EntryCompiles(key, m, row, columns);
    var part := Part(key, row, columns, ColumnOf(key, m, row, columns));
    if part != [] {
      TokensNonEmpty(part);
    }
  }

  /** In any order, the emitted conditions of a row are the texts of its parts. */
  lemma RowCompiles(order: seq<string>, m: map<string, string>, row: Row, columns: seq<Column>)
    requires CellsWf(row, columns) && ColumnsWf(columns) && MapsRow(m, row, columns) && KeysOf(order, m)
    ensures Conditions(order, m) == PartTokens(Parts(order, m, row, columns))
  {
    var parts := Parts(order, m, row, columns);
    forall k | 0 <= k < |order| ensures EmittedAs(order[k], m, parts[k]) {
      EntryEmitted(order[k], m, row, columns);
    }
    PartsCompile(order, m, parts);
  }

  lemma PartMeans(key: string, row: Row, columns: seq<Column>, i: nat, inputs: Inputs)
    requires RowWf(row, columns) && WellTyped(columns, inputs) && i < |row.cells| && columns[i].name == key
    ensures GroupsSafe(Part(key, row, columns, i), inputs)
    ensures PartTrue(Part(key, row, columns, i), inputs) <==> CellAccepts(row, columns, i, inputs)
  {
    if row.cells[i] != Blank {
      CellMeans(key, row.cells[i], columns[i].typeRef, inputs);
    }
  }

  // ---------------------------------------------- from the parts to the row

  /** What matters about a cell and an input: is it blank, is it emitted as a
      bare disjunction, does it accept? */
  datatype Verdict = Verdict(blank: bool, loose: bool, ok: bool)

  function Verdicts(row: Row, columns: seq<Column>, inputs: Inputs): (vs: seq<Verdict>)
    requires RowWf(row, columns) && WellTyped(columns, inputs)
    ensures |vs| == |row.cells|
    ensures forall i | 0 <= i < |vs| ::
        vs[i] == Verdict(row.cells[i] == Blank, Loose(row.cells[i]), CellAccepts(row, columns, i, inputs))
  {
    seq(|row.cells|, i requires 0 <= i < |row.cells| =>
      Verdict(row.cells[i] == Blank, Loose(row.cells[i]), CellAccepts(row, columns, i, inputs)))
  }

  ghost predicate AllOk(vs: seq<Verdict>) {
    forall i | 0 <= i < |vs| :: vs[i].ok
  }

  ghost predicate Sole(vs: seq<Verdict>, c: nat) {
    c < |vs| && !vs[c].blank && forall i | 0 <= i < |vs| && i != c :: vs[i].blank
  }

  /** No bare disjunction, or nothing beside it. */
  ghost predicate Exact(vs: seq<Verdict>) {
    (forall i | 0 <= i < |vs| :: !vs[i].loose) || exists c :: Sole(vs, c)
  }

  /** `parts` are the emitted forms of the cells, in the order `cols`. */
  ghost predicate Fits(parts: seq<seq<Group>>, cols: seq<nat>, vs: seq<Verdict>, inputs: Inputs) {
    PartsFit(parts, cols, vs, inputs) && Covers(cols, |vs|)
  }

  ghost predicate PartsFit(parts: seq<seq<Group>>, cols: seq<nat>, vs: seq<Verdict>, inputs: Inputs) {
    && |parts| == |cols|
    && forall k | 0 <= k < |parts| :: cols[k] < |vs| && PartFits(parts[k], vs[cols[k]], inputs)
  }

  /** Every number below `n` is listed, and none twice. */
  ghost predicate Covers(cols: seq<nat>, n: nat) {
    && (forall i | 0 <= i < n :: i in cols)
    && (forall j, k | 0 <= j < k < |cols| :: cols[j] != cols[k])
  }

  ghost predicate PartFits(part: seq<Group>, v: Verdict, inputs: Inputs) {
    && GroupsSafe(part, inputs)
    && (PartTrue(part, inputs) <==> v.ok)
    && (part == [] <==> v.blank)
    && (!v.loose ==> |part| <= 1)
  }

  lemma FitsAll(parts: seq<seq<Group>>, cols: seq<nat>, vs: seq<Verdict>, inputs: Inputs)
    requires Fits(parts, cols, vs, inputs)
    ensures PartsSafe(parts, inputs)
    ensures PartsTrue(parts, inputs) <==> AllOk(vs)
  {
    forall k | 0 <= k < |parts| ensures GroupsSafe(parts[k], inputs) {
      assert PartFits(parts[k], vs[cols[k]], inputs);
    }
    if PartsTrue(parts, inputs) {
      forall i | 0 <= i < |vs| ensures vs[i].ok {
        assert i in cols;
        var k :| 0 <= k < |cols| && cols[k] == i;
        assert PartFits(parts[k], vs[i], inputs);
      }
    }
    if AllOk(vs) {
      forall k | 0 <= k < |parts| ensures PartTrue(parts[k], inputs) {
        assert PartFits(parts[k], vs[cols[k]], inputs);
      }
    }
  }

  lemma FitsNonEmpty(parts: seq<seq<Group>>, cols: seq<nat>, vs: seq<Verdict>, inputs: Inputs, i: nat)
    requires Fits(parts, cols, vs, inputs) && i < |vs| && !vs[i].blank
    ensures GlueAll(parts) != []
  {
    assert i in cols;
    var k :| 0 <= k < |cols| && cols[k] == i;
    assert PartFits(parts[k], vs[i], inputs);
    GlueAllNonEmpty(parts, k);
  }

  lemma FitsSole(parts: seq<seq<Group>>, cols: seq<nat>, vs: seq<Verdict>, inputs: Inputs, c: nat)
    requires Fits(parts, cols, vs, inputs) && Sole(vs, c)
    ensures PartTrue(GlueAll(parts), inputs) <==> AllOk(vs)
  {
    assert c in cols;
    var k :| 0 <= k < |cols| && cols[k] == c;
    forall j | 0 <= j < |parts| && j != k ensures parts[j] == [] {
      assert cols[j] != c;
      assert PartFits(parts[j], vs[cols[j]], inputs);
    }
    GlueAllSole(parts, k);
    assert PartFits(parts[k], vs[c], inputs);
    forall i | 0 <= i < |vs| && i != c ensures vs[i].ok {
      assert i in cols;
      var j :| 0 <= j < |cols| && cols[j] == i;
      assert PartFits(parts[j], vs[i], inputs);
    }
  }

  lemma FitsExact(parts: seq<seq<Group>>, cols: seq<nat>, vs: seq<Verdict>, inputs: Inputs)
    requires Fits(parts, cols, vs, inputs) && Exact(vs)
    ensures PartTrue(GlueAll(parts), inputs) <==> AllOk(vs)
  {
    if forall i | 0 <= i < |vs| :: !vs[i].loose {
      FitsAll(parts, cols, vs, inputs);
      forall k | 0 <= k < |parts| ensures |parts[k]| <= 1 {
        assert PartFits(parts[k], vs[cols[k]], inputs);
      }
      GlueAllStrict(parts, inputs);
    } else {
      var c :| Sole(vs, c);
      FitsSole(parts, cols, vs, inputs, c);
    }
  }

  lemma PartFitsCell(key: string, row: Row, columns: seq<Column>, i: nat, inputs: Inputs)
    requires RowWf(row, columns) && WellTyped(columns, inputs) && i < |row.cells| && columns[i].name == key
    ensures PartFits(Part(key, row, columns, i),
                     Verdict(row.cells[i] == Blank, Loose(row.cells[i]), CellAccepts(row, columns, i, inputs)), inputs)
  {
    PartMeans(key, row, columns, i, inputs);
  }

  lemma OrderNames(order: seq<string>, m: map<string, string>, row: Row, columns: seq<Column>)
    requires RowWf(row, columns) && MapsRow(m, row, columns) && IsOrder(order, m.Keys)
    ensures var names := RowNames(row, columns);
            && (forall k | 0 <= k < |order| :: order[k] in names)
            && (forall i | 0 <= i < |names| :: names[i] in order)
  {
    var names := RowNames(row, columns);
    forall i | 0 <= i < |names| ensures names[i] in order {
      assert names[i] in m.Keys;
    }
    forall k | 0 <= k < |order| ensures order[k] in names {
      var i :| 0 <= i < |row.cells| && columns[i].name == order[k];
      assert names[i] == order[k];
    }
  }

  lemma PartFitsAt(order: seq<string>, m: map<string, string>, row: Row, columns: seq<Column>, inputs: Inputs, k: nat)
    requires RowWf(row, columns) && WellTyped(columns, inputs)
    requires MapsRow(m, row, columns) && KeysOf(order, m) && k < |order|
    ensures var i := ColumnOf(order[k], m, row, columns);
            PartFits(Parts(order, m, row, columns)[k], Verdicts(row, columns, inputs)[i], inputs)
  {
    PartFitsCell(order[k], row, columns, ColumnOf(order[k], m, row, columns), inputs);
  }

  lemma NamesDiffer(row: Row, columns: seq<Column>)
    requires RowWf(row, columns) && ColumnsWf(columns)
    ensures var names := RowNames(row, columns);
            forall i, j | 0 <= i < j < |names| :: names[i] != names[j]
  {
  }

  lemma RowFits(order: seq<string>, m: map<string, string>, row: Row, columns: seq<Column>, inputs: Inputs)
    requires RowWf(row, columns) && ColumnsWf(columns) && WellTyped(columns, inputs)
    requires MapsRow(m, row, columns) && IsOrder(order, m.Keys)
    ensures KeysOf(order, m)
    ensures forall k | 0 <= k < |order| :: order[k] in RowNames(row, columns)
    ensures Fits(Parts(order, m, row, columns), Positions(order, RowNames(row, columns)),
                 Verdicts(row, columns, inputs), inputs)
  {
    OrderNames(order, m, row, columns);
    NamesDiffer(row, columns);
    PositionsCover(order, RowNames(row, columns));
    AllPartsFit(order, m, row, columns, inputs);
  }

  lemma AllPartsFit(order: seq<string>, m: map<string, string>, row: Row, columns: seq<Column>, inputs: Inputs)
    requires RowWf(row, columns) && WellTyped(columns, inputs)
    requires MapsRow(m, row, columns) && KeysOf(order, m)
    requires forall k | 0 <= k < |order| :: order[k] in RowNames(row, columns)
    ensures var parts, cols := Parts(order, m, row, columns), Positions(order, RowNames(row, columns));
            PartsFit(parts, cols, Verdicts(row, columns, inputs), inputs)
  {
    forall k | 0 <= k < |order|
      ensures var i := ColumnOf(order[k], m, row, columns);
              PartFits(Parts(order, m, row, columns)[k], Verdicts(row, columns, inputs)[i], inputs)
    {
      PartFitsAt(order, m, row, columns, inputs, k);
    }
  }

  lemma RowNonBlank(row: Row, columns: seq<Column>) returns (i: nat)
    requires RowWf(row, columns)
    ensures i < |row.cells| && row.cells[i] != Blank
  {
    i :| i < |row.cells| && row.cells[i] != Blank;
  }

  lemma RowVerdicts(row: Row, columns: seq<Column>, inputs: Inputs)
    requires RowWf(row, columns) && WellTyped(columns, inputs)
    ensures AllOk(Verdicts(row, columns, inputs)) <==> RowHolds(row, columns, inputs)
    ensures Exact(Verdicts(row, columns, inputs)) <==> RowExact(row)
  {
    var vs := Verdicts(row, columns, inputs);
    if AllOk(vs) {
      forall i: nat | i < |row.cells| ensures CellAccepts(row, columns, i, inputs) {
        assert vs[i].ok;
      }
    }
    if RowExact(row) && !NoneLoose(row) {
      var c :| SoleCondition(row, c);
      assert Sole(vs, c);
    }
    if exists c :: Sole(vs, c) {
      var c :| Sole(vs, c);
      assert forall i | 0 <= i < |row.cells| && i != c :: vs[i].blank;
      assert SoleCondition(row, c);
    }
  }

  /** The value Go computes for the emitted condition of a row. */
  function RowValue(order: seq<string>, m: map<string, string>, inputs: Inputs): Option<bool>
    requires forall k | 0 <= k < |order| :: order[k] in m
  {
    match ParseOr(JoinTokens(Conditions(order, m), AndAnd))
    case None => None
    case Some(p) => if p.rest == [] then Eval(p.expr, inputs) else None
  }

  /** Whatever the row and the order, the emitted text is a Go condition that
      evaluates without a panic to the value of its groups. */
  lemma RowReads(order: seq<string>, m: map<string, string>, row: Row, columns: seq<Column>, inputs: Inputs,
                 rest: seq<Token>)
    requires RowWf(row, columns) && ColumnsWf(columns) && WellTyped(columns, inputs) && Ends(rest)
    requires MapsRow(m, row, columns) && IsOrder(order, m.Keys)
    ensures KeysOf(order, m) && GlueAll(Parts(order, m, row, columns)) != []
    ensures var gs := GlueAll(Parts(order, m, row, columns));
            && ParseOr(JoinTokens(Conditions(order, m), AndAnd) + rest) == Some(Parsed(GroupsExpr(gs), rest))
            && Eval(GroupsExpr(gs), inputs) == Some(GroupsTrue(gs, inputs))
            && RowValue(order, m, inputs) == Some(GroupsTrue(gs, inputs))
  {
    RowFits(order, m, row, columns, inputs);
    RowCompiles(order, m, row, columns);
    var i := RowNonBlank(row, columns);
    ConditionsRead(order, m, Parts(order, m, row, columns), Positions(order, RowNames(row, columns)),
                   Verdicts(row, columns, inputs), inputs, i, rest);
  }

  lemma ConditionsRead(order: seq<string>, m: map<string, string>, parts: seq<seq<Group>>, cols: seq<nat>,
                       vs: seq<Verdict>,
                       inputs: Inputs, i: nat, rest: seq<Token>)
    requires KeysOf(order, m) && Conditions(order, m) == PartTokens(parts)
    requires Fits(parts, cols, vs, inputs) && i < |vs| && !vs[i].blank && Ends(rest)
    ensures GlueAll(parts) != []
    ensures var gs := GlueAll(parts);
            && ParseOr(JoinTokens(Conditions(order, m), AndAnd) + rest) == Some(Parsed(GroupsExpr(gs), rest))
            && Eval(GroupsExpr(gs), inputs) == Some(GroupsTrue(gs, inputs))
            && RowValue(order, m, inputs) == Some(GroupsTrue(gs, inputs))
  {
    PartsRead(parts, cols, vs, inputs, i, rest);
  }

  lemma PartsRead(parts: seq<seq<Group>>, cols: seq<nat>, vs: seq<Verdict>, inputs: Inputs, i: nat, rest: seq<Token>)
    requires Fits(parts, cols, vs, inputs) && i < |vs| && !vs[i].blank && Ends(rest)
    ensures GlueAll(parts) != []
    ensures var gs, text := GlueAll(parts), JoinTokens(PartTokens(parts), AndAnd);
            && ParseOr(text + rest) == Some(Parsed(GroupsExpr(gs), rest))
            && ParseOr(text) == Some(Parsed(GroupsExpr(gs), []))
            && Eval(GroupsExpr(gs), inputs) == Some(GroupsTrue(gs, inputs))
  {
    FitsAll(parts, cols, vs, inputs);
    FitsNonEmpty(parts, cols, vs, inputs, i);
    GlueAllTokens(parts);
    GlueAllSafe(parts, inputs);
    var gs := GlueAll(parts);
    TokensParse(gs, rest);
    TokensParse(gs, []);
    assert Tokens(gs) + [] == Tokens(gs);
    GroupsEval(gs, inputs);
  }

  ghost predicate NoneLoose(row: Row) {
    forall i | 0 <= i < |row.cells| :: !Loose(row.cells[i])
  }

  ghost predicate SoleCondition(row: Row, k: nat) {
    k < |row.cells| && row.cells[k] != Blank && forall i | 0 <= i < |row.cells| && i != k :: row.cells[i] == Blank
  }

  /** The rows whose text has one reading: no time cell with `<=` or `>=`, or a
      single cell that is not blank. */
  ghost predicate RowExact(row: Row) {
    NoneLoose(row) || exists k :: SoleCondition(row, k)
  }

  lemma ExactMeans(order: seq<string>, m: map<string, string>, row: Row, columns: seq<Column>, inputs: Inputs)
    requires RowWf(row, columns) && ColumnsWf(columns) && WellTyped(columns, inputs)
    requires MapsRow(m, row, columns) && IsOrder(order, m.Keys) && RowExact(row)
    ensures KeysOf(order, m) && GlueAll(Parts(order, m, row, columns)) != []
    ensures GroupsTrue(GlueAll(Parts(order, m, row, columns)), inputs) <==> RowHolds(row, columns, inputs)
  {
    RowFits(order, m, row, columns, inputs);
    RowVerdicts(row, columns, inputs);
    var i := RowNonBlank(row, columns);
    FitsMeans(Parts(order, m, row, columns), Positions(order, RowNames(row, columns)), Verdicts(row, columns, inputs),
        inputs, i);
  }

  lemma FitsMeans(parts: seq<seq<Group>>, cols: seq<nat>, vs: seq<Verdict>, inputs: Inputs, i: nat)
    requires Fits(parts, cols, vs, inputs) && Exact(vs) && i < |vs| && !vs[i].blank
    ensures GlueAll(parts) != []
    ensures GroupsTrue(GlueAll(parts), inputs) <==> AllOk(vs)
  {
    FitsNonEmpty(parts, cols, vs, inputs, i);
    FitsExact(parts, cols, vs, inputs);
  }

  // ------------------------------------------------------------- where it fails

  /** A value of the column's type that a cell other than a blank one rejects. */
  ghost function Rejected(cell: Cell, typeRef: string): (v: Value)
    requires CellWf(cell, typeRef) && cell != Blank
    ensures HasType(v, ColumnType(typeRef)) && !Accepts(cell, typeRef, v)
  {
    match cell
    case OneOf(items, _) => Str(Longer(items))
    case Quoted(item) => Str(item + "x")
    case BoolIs(b) => Bool(!b)
    case EqualTo(n) => Num(n.Value() + 1.0)
    case Related(rel, _, n) => Num(if rel in {LT, LE} then n.Value() + 1.0 else n.Value() - 1.0)
    case Between(_, _, hi, _, _) => Num(hi.Value() + 1.0)
    case TimeAt(at) => Instant(at.Instant() + 1)
    case TimeRelated(rel, _, at) => Instant(if rel in {LT, LE} then at.Instant() + 1 else at.Instant() - 1)
    case TimeBetween(_, _, to, _, _) => Instant(to.Instant() + 1)
  }

  ghost function Longer(items: seq<string>): (s: string)
    ensures forall i | 0 <= i < |items| :: |items[i]| < |s|
  {
    if items == [] then "x"
    else
      var s := Longer(items[1..]);
      assert forall i | 0 < i < |items| :: items[i] == items[1..][i - 1];
      s + items[0] + "x"
  }

  function ZeroOf(typ: GoType): (v: Value)
    ensures HasType(v, typ)
  {
    match typ
    case TString => Str("")
    case TFloat64 => Num(0.0)
    case TBool => Bool(false)
    case TTime => Instant(0)
  }

  /** A time that the cell accepts without the `Equal` alternative. */
  function JustBeside(cell: Cell): Value
    requires Loose(cell)
  {
    Instant(if cell.rel == LE then cell.at.Instant() - 1 else cell.at.Instant() + 1)
  }

  /** The input on which a loose cell `c` beside another cell goes wrong: `c` is
      strictly satisfied and every other cell is not. */
  ghost function Misread(row: Row, columns: seq<Column>, c: nat, i: nat): (v: Value)
    requires RowWf(row, columns) && c < |row.cells| && Loose(row.cells[c]) && i < |columns|
    ensures HasType(v, ColumnType(columns[i].typeRef))
  {
    if i == c then JustBeside(row.cells[c])
    else if i < |row.cells| && row.cells[i] != Blank then Rejected(row.cells[i], columns[i].typeRef)
    else ZeroOf(ColumnType(columns[i].typeRef))
  }

  /** The inputs that give each column its value. */
  ghost function Assigned(columns: seq<Column>, vs: seq<Value>): (inputs: Inputs)
    requires ColumnsWf(columns) && |vs| <= |columns|
    ensures forall i | 0 <= i < |vs| :: columns[i].name in inputs && inputs[columns[i].name] == vs[i]
    decreases |vs|
  {
    if vs == [] then map[]
    else
      var n := |vs| - 1;
      Assigned(columns, vs[..n])[columns[n].name := vs[n]]
  }

  ghost function MisreadInputs(row: Row, columns: seq<Column>, c: nat): (inputs: Inputs)
    requires RowWf(row, columns) && ColumnsWf(columns) && c < |row.cells| && Loose(row.cells[c])
    ensures WellTyped(columns, inputs)
    ensures forall i | 0 <= i < |columns| :: inputs[columns[i].name] == Misread(row, columns, c, i)
  {
    var vs := seq(|columns|, i requires 0 <= i < |columns| => Misread(row, columns, c, i));
    Assigned(columns, vs)
  }

  /** Any listing of the keys can be started with a key of choice. */
  lemma StartWith(keys: set<string>, first: string) returns (order: seq<string>)
    requires first in keys
    ensures IsOrder(order, keys) && order != [] && order[0] == first
  {
    order := [first];
    var left := keys - {first};
    while left != {}
      invariant left <= keys - {first}
      invariant IsOrder(order, keys - left) && order != [] && order[0] == first
      decreases left
    {
      var key :| key in left;
      order := order + [key];
      left := left - {key};
    }
    assert keys - left == keys;
  }

  lemma FirstAhead(parts: seq<seq<Group>>, inputs: Inputs)
    requires parts != [] && |parts[0]| >= 2 && GroupTrue(parts[0][0], inputs)
    ensures GroupsTrue(GlueAll(parts), inputs)
  {
    GlueAllFirst(parts);
    assert GroupTrue(GlueAll(parts)[0], inputs);
  }

  lemma LooseStrict(key: string, cell: Cell, typeRef: string, inputs: Inputs)
    requires CellWf(cell, typeRef) && Loose(cell) && key in inputs
    requires inputs[key] == JustBeside(cell)
    ensures var gs := CellGroups(key, cell, typeRef); |gs| >= 2 && GroupTrue(gs[0], inputs)
  {
  }

  lemma ColumnNamed(m: map<string, string>, row: Row, columns: seq<Column>, c: nat)
    requires CellsWf(row, columns) && ColumnsWf(columns) && MapsRow(m, row, columns) && c < |row.cells|
    requires columns[c].name in m
    ensures ColumnOf(columns[c].name, m, row, columns) == c
  {
  }

  lemma FirstPart(order: seq<string>, m: map<string, string>, row: Row, columns: seq<Column>, c: nat)
    requires RowWf(row, columns) && ColumnsWf(columns) && MapsRow(m, row, columns) && KeysOf(order, m)
    requires c < |row.cells| && row.cells[c] != Blank && order != [] && order[0] == columns[c].name
    ensures Parts(order, m, row, columns)[0] == CellGroups(order[0], row.cells[c], columns[c].typeRef)
  {
    ColumnNamed(m, row, columns, c);
  }

  lemma LooseAhead(order: seq<string>, m: map<string, string>, row: Row, columns: seq<Column>, c: nat, inputs: Inputs)
    requires RowWf(row, columns) && ColumnsWf(columns) && MapsRow(m, row, columns) && KeysOf(order, m)
    requires c < |row.cells| && Loose(row.cells[c]) && order != [] && order[0] == columns[c].name
    requires columns[c].name in inputs && inputs[columns[c].name] == JustBeside(row.cells[c])
    ensures GroupsTrue(GlueAll(Parts(order, m, row, columns)), inputs)
  {
    var parts := Parts(order, m, row, columns);
    FirstPart(order, m, row, columns, c);
    LooseStrict(order[0], row.cells[c], columns[c].typeRef, inputs);
    FirstAhead(parts, inputs);
  }

  lemma LooseAndOther(row: Row) returns (c: nat, j: nat)
    requires !RowExact(row)
    ensures c < |row.cells| && Loose(row.cells[c])
    ensures j < |row.cells| && j != c && row.cells[j] != Blank
  {
    c :| c < |row.cells| && Loose(row.cells[c]);
    assert !SoleCondition(row, c);
    j :| j < |row.cells| && j != c && row.cells[j] != Blank;
  }

  /** The counterexample, for every row outside the exact ones: an order and
      well-typed inputs on which Go takes the branch though the row does not hold. */
  lemma LooseRowFails(m: map<string, string>, row: Row, columns: seq<Column>)
    returns (order: seq<string>, inputs: Inputs)
    requires RowWf(row, columns) && ColumnsWf(columns) && MapsRow(m, row, columns) && !RowExact(row)
    ensures WellTyped(columns, inputs) && IsOrder(order, m.Keys)
    ensures KeysOf(order, m) && RowValue(order, m, inputs) == Some(true)
    ensures !RowHolds(row, columns, inputs)
  {
    var c, j := LooseAndOther(row);
    inputs := MisreadInputs(row, columns, c);
    order := StartWith(m.Keys, columns[c].name);
    RowReads(order, m, row, columns, inputs, []);
    LooseAhead(order, m, row, columns, c, inputs);
    assert !CellAccepts(row, columns, j, inputs);
  }

  lemma ExactReads(order: seq<string>, m: map<string, string>, row: Row, columns: seq<Column>, inputs: Inputs)
    requires RowWf(row, columns) && ColumnsWf(columns) && WellTyped(columns, inputs)
    requires MapsRow(m, row, columns) && IsOrder(order, m.Keys) && RowExact(row)
    ensures RightAt(m, row, columns, order, inputs)
  {
    RowReads(order, m, row, columns, inputs, []);
    ExactMeans(order, m, row, columns, inputs);
  }

  /** The emitted condition has the value of the row, in every order and on every
      well-typed input. */
  ghost predicate RowCorrect(m: map<string, string>, row: Row, columns: seq<Column>)
    requires RowWf(row, columns)
  {
    forall order, inputs | IsOrder(order, m.Keys) && WellTyped(columns, inputs) ::
        RightAt(m, row, columns, order, inputs)
  }

  ghost predicate RightAt(m: map<string, string>, row: Row, columns: seq<Column>, order: seq<string>, inputs: Inputs)
    requires RowWf(row, columns) && WellTyped(columns, inputs)
  {
    KeysOf(order, m) && RowValue(order, m, inputs) == Some(RowHolds(row, columns, inputs))
  }

  lemma ExactIsCorrect(m: map<string, string>, row: Row, columns: seq<Column>)
    requires RowWf(row, columns) && ColumnsWf(columns) && MapsRow(m, row, columns) && RowExact(row)
    ensures RowCorrect(m, row, columns)
  {
    forall order, inputs | IsOrder(order, m.Keys) && WellTyped(columns, inputs)
      ensures RightAt(m, row, columns, order, inputs)
    {
      ExactReads(order, m, row, columns, inputs);
    }
  }

  lemma InexactIsWrong(m: map<string, string>, row: Row, columns: seq<Column>)
    requires RowWf(row, columns) && ColumnsWf(columns) && MapsRow(m, row, columns) && !RowExact(row)
    ensures !RowCorrect(m, row, columns)
  {
    var order, inputs := LooseRowFails(m, row, columns);
    assert !RightAt(m, row, columns, order, inputs);
  }

  /** Exactly when the emitted condition of a row is right. */
  lemma RowCorrectIffExact(row: Row, columns: seq<Column>)
    requires RowWf(row, columns) && ColumnsWf(columns)
    ensures RowExact(row) <==> RowCorrect(RowMap(row, columns), row, columns)
  {
    RowMapMaps(row, columns);
    if RowExact(row) {
      ExactIsCorrect(RowMap(row, columns), row, columns);
    } else {
      InexactIsWrong(RowMap(row, columns), row, columns);
    }
  }
}
