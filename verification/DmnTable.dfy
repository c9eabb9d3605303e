/** Decision tables as their authors mean them: cells as unary tests (DMN 1.3,
    clauses 8 and 9), their meaning, and the text in which a DMN file holds them. */
module DmnTable {
  import opened GoStrings
  import opened GoExpr
  import opened GoReturn

  // ------------------------------------------------------------------ cells

  datatype Numeral = Numeral(neg: bool, whole: string, frac: string)
  {
    predicate Wf() {
      IsDecimal(whole, frac)
    }

    function Value(): real
      requires Wf()
    {
      DecimalValue(neg, whole, frac)
    }

    function Text(): string {
      (if neg then "-" else "") + whole + (if frac == "" then "" else "." + frac)
    }
  }

  datatype Zone = Zulu | Offset(east: bool, hours: int, minutes: int)

  datatype Stamp = Stamp(civil: Civil, zone: Zone)
  {
    predicate Wf() {
      && 0 <= civil.year < 10000 && 1 <= civil.month <= 12
      && 1 <= civil.day <= DaysIn(civil.year, civil.month)
      && 0 <= civil.hour < 24 && 0 <= civil.minute < 60 && 0 <= civil.second < 60
      && (zone.Offset? ==> 0 <= zone.hours < 24 && 0 <= zone.minutes < 60)
    }

    function OffsetSeconds(): int {
      match zone
      case Zulu => 0
      case Offset(east, h, m) => if east then (h * 60 + m) * 60 else -((h * 60 + m) * 60)
    }

    /** The instant the stamp denotes. */
    function Instant(): int {
      Seconds(civil) - OffsetSeconds()
    }

    /** RFC 3339 text. */
    function Text(): string
      requires Wf()
    {
      Four(civil.year) + "-" + Two(civil.month) + "-" + Two(civil.day) + "T" +
      Two(civil.hour) + ":" + Two(civil.minute) + ":" + Two(civil.second) + ZoneText()
    }

    function ZoneText(): string
      requires Wf()
    {
      match zone
      case Zulu => "Z"
      case Offset(east, h, m) => (if east then "+" else "-") + Two(h) + ":" + Two(m)
    }
  }

  function Digit(n: int): char
    requires 0 <= n < 10
  {
    '0' + n as char
  }

  function Two(n: int): string
    requires 0 <= n < 100
  {
    [Digit(n / 10), Digit(n % 10)]
  }

  function Four(n: int): string
    requires 0 <= n < 10000
  {
    Two(n / 100) + Two(n % 100)
  }

  datatype Rel = LT | LE | GT | GE
  {
    function Text(): string {
      match this
      case LT => "<"
      case LE => "<="
      case GT => ">"
      case GE => ">="
    }
  }

  datatype Cell =
    | Blank
    | OneOf(items: seq<string>, pads: seq<string>)
    | BoolIs(b: bool)
    | EqualTo(n: Numeral)
    | Related(rel: Rel, pad: string, n: Numeral)
    | Between(open: char, lo: Numeral, hi: Numeral, close: char, gaps: Gaps)
    | TimeAt(at: Stamp)
    | TimeRelated(rel: Rel, pad: string, at: Stamp)
    | TimeBetween(open: char, from: Stamp, to: Stamp, close: char, gaps: Gaps)
    | Quoted(item: string)

  /** The blanks a table author may put around the two bounds of an interval. */
  datatype Gaps = Gaps(a: string, b: string, c: string, d: string)
  {
    predicate Wf() {
      IsBlank(a) && IsBlank(b) && IsBlank(c) && IsBlank(d)
    }
  }

  predicate IsBlank(s: string) {
    AllIn(s, " ")
  }

  // ---------------------------------------------------------------- meaning

  function LowerTest(open: char, v: real, lo: real): bool {
    if open == '[' then lo <= v else lo < v
  }

  function UpperTest(close: char, v: real, hi: real): bool {
    if close == ']' then v <= hi else v < hi
  }

  predicate Brackets(open: char, close: char) {
    open in {'[', ']', '('} && close in {']', '[', ')'}
  }

  function RelTest(rel: Rel, x: real, y: real): bool {
    match rel
    case LT => x < y
    case LE => x <= y
    case GT => x > y
    case GE => x >= y
  }

  /** Does the cell accept the input value? A blank cell accepts everything. */
  predicate Accepts(cell: Cell, typeRef: string, v: Value)
    requires CellWritten(cell, typeRef)
    requires HasType(v, ColumnType(typeRef))
  {
    match cell
    case Blank => true
    case OneOf(items, _) => v.s in items
    case Quoted(item) => v.s == item
    case BoolIs(b) => v.b == b
    case EqualTo(n) => v.r == n.Value()
    case Related(rel, _, n) => RelTest(rel, v.r, n.Value())
    case Between(open, lo, hi, close, _) => LowerTest(open, v.r, lo.Value()) && UpperTest(close, v.r, hi.Value())
    case TimeAt(at) => v.t == at.Instant()
    case TimeRelated(rel, _, at) => RelTest(rel, v.t as real, at.Instant() as real)
    case TimeBetween(open, from, to, close, _) =>
      LowerTest(open, v.t as real, from.Instant() as real) && UpperTest(close, v.t as real, to.Instant() as real)
  }

  /** The Go type that the generated code asserts for a column. */
  function ColumnType(typeRef: string): GoType {
    if typeRef == "dateTime" then TTime
    else if typeRef == "boolean" then TBool
    else if typeRef == "number" || typeRef == "context" then TFloat64
    else TString
  }

  /** A string item that survives quoting, the cell separator and list splitting. */
  predicate ItemWf(item: string) {
    IsPlain(item) && '|' !in item && ',' !in item
  }

  /** In a list the compiler trims blanks as well as quotes. */
  predicate ListItemWf(item: string) {
    ItemWf(item) && (item == "" || (item[0] != ' ' && item[|item| - 1] != ' '))
  }

  /** The cells of the supported fragment: those of a column's type whose time
      intervals include both bounds. */
  predicate CellWf(cell: Cell, typeRef: string) {
    CellWritten(cell, typeRef) && (cell.TimeBetween? ==> cell.open == '[' && cell.close == ']')
  }

  /** The cells by column type. Time stamps are in UTC. */
  predicate CellWritten(cell: Cell, typeRef: string) {
    match cell
    case Blank => true
    case OneOf(items, pads) =>
      && typeRef == "string" && |items| == |pads| >= 1
      && (|items| == 1 ==> pads[0] == "" && ItemWf(items[0]))
      && (|items| > 1 ==> forall i | 0 <= i < |items| :: ListItemWf(items[i]) && IsBlank(pads[i]))
    case Quoted(item) =>
      typeRef !in {"string", "boolean", "number", "context", "dateTime"} && ItemWf(item)
    case BoolIs(_) => typeRef == "boolean"
    case EqualTo(n) => typeRef in {"number", "context"} && n.Wf()
    case Related(_, pad, n) => typeRef in {"number", "context"} && n.Wf() && IsBlank(pad)
    case Between(open, lo, hi, close, gaps) =>
      && typeRef in {"number", "context"} && lo.Wf() && hi.Wf() && gaps.Wf()
      && Brackets(open, close)
    case TimeAt(at) => typeRef == "dateTime" && at.Wf() && at.OffsetSeconds() == 0
    case TimeRelated(_, pad, at) => typeRef == "dateTime" && at.Wf() && at.OffsetSeconds() == 0 && IsBlank(pad)
    case TimeBetween(open, from, to, close, gaps) =>
      && typeRef == "dateTime" && gaps.Wf() && Brackets(open, close)
      && from.Wf() && from.OffsetSeconds() == 0 && to.Wf() && to.OffsetSeconds() == 0
  }

  // ------------------------------------------------------------------- text

  function StampText(at: Stamp): string
    requires at.Wf()
  {
    "date and time(\"" + at.Text() + "\")"
  }

  function Quote(item: string): string {
    "\"" + item + "\""
  }

  function ListTexts(items: seq<string>, pads: seq<string>): (r: seq<string>)
    requires |items| == |pads|
    ensures |r| == |items|
    ensures forall i | 0 <= i < |r| :: r[i] == pads[i] + Quote(items[i])
  {
    seq(|items|, i requires 0 <= i < |items| => pads[i] + Quote(items[i]))
  }

  function BetweenText(open: char, lo: Numeral, hi: Numeral, close: char, g: Gaps): string {
    [open] + ((g.a + lo.Text() + g.b) + ".." + (g.c + hi.Text() + g.d)) + [close]
  }

  /** The text of the cell in the DMN file. */
  function Text(cell: Cell, typeRef: string): string
    requires CellWritten(cell, typeRef)
  {
    match cell
    case Blank => ""
    case OneOf(items, pads) => Join(ListTexts(items, pads), ",")
    case Quoted(item) => Quote(item)
    case BoolIs(b) => if b then "true" else "false"
    case EqualTo(n) => n.Text()
    case Related(rel, pad, n) => rel.Text() + pad + n.Text()
    case Between(open, lo, hi, close, g) => BetweenText(open, lo, hi, close, g)
    case TimeAt(at) => StampText(at)
    case TimeRelated(rel, pad, at) => rel.Text() + pad + StampText(at)
    case TimeBetween(open, from, to, close, g) =>
      (g.a + [open] + StampText(from) + g.b) + ".." + (g.c + StampText(to) + [close] + g.d)
  }

  // ------------------------------------------------------------------ tables

  datatype Column = Column(name: string, typeRef: string)

  datatype OutColumn = OutColumn(typeRef: string)

  datatype Row = Row(cells: seq<Cell>, outs: seq<string>)

  datatype Table = Table(name: string, columns: seq<Column>, outputs: seq<OutColumn>, rows: seq<Row>)

  /** Labels are written between quotes; interval cells also look for a colon. */
  predicate LabelWf(name: string) {
    IsPlain(name) && ':' !in name
  }

  predicate ColumnsWf(columns: seq<Column>) {
    && (forall i | 0 <= i < |columns| :: LabelWf(columns[i].name) && '|' !in columns[i].typeRef)
    && (forall i, j | 0 <= i < j < |columns| :: columns[i].name != columns[j].name)
  }

  predicate CellsWf(row: Row, columns: seq<Column>) {
    && |row.cells| <= |columns|
    && (forall i | 0 <= i < |row.cells| :: CellWf(row.cells[i], columns[i].typeRef))
  }

  predicate NonBlank(row: Row) {
    exists i | 0 <= i < |row.cells| :: row.cells[i] != Blank
  }

  predicate RowWf(row: Row, columns: seq<Column>) {
    CellsWf(row, columns) && NonBlank(row)
  }

  /** A table whose cells and output entries are of the supported fragment, and whose
      rows do not have more outputs than there are output columns: the compiler handles
      it without a panic. Entries may be blank, or hold several results. */
  predicate Supported(t: Table) {
    && ColumnsWf(t.columns)
    && forall r | 0 <= r < |t.rows| ::
         CellsWf(t.rows[r], t.columns) && |t.rows[r].outs| <= |t.outputs| && Written(t.rows[r].outs)
  }

  function OutType(o: OutColumn): GoType {
    if o.typeRef == "number" then TFloat64 else if o.typeRef == "boolean" then TBool else TString
  }

  function OutTypes(outputs: seq<OutColumn>): (r: seq<GoType>)
    ensures |r| == |outputs|
  {
    seq(|outputs|, i requires 0 <= i < |outputs| => OutType(outputs[i]))
  }

  /** The row's entries are one result for every output column, of its type. */
  predicate OutsWf(row: Row, outputs: seq<OutColumn>) {
    TextsFit(row.outs, OutTypes(outputs))
  }

  predicate TableWf(t: Table) {
    Supported(t) && forall r | 0 <= r < |t.rows| :: RowWf(t.rows[r], t.columns) && OutsWf(t.rows[r], t.outputs)
  }

  // ----------------------------------------------------- packages and imports

  /** Some cell compares a time. */
  predicate TimeCell(t: Table) {
    exists r, i | 0 <= r < |t.rows| && 0 <= i < |t.rows[r].cells| && i < |t.columns| ::
      t.rows[r].cells[i] != Blank && t.columns[i].typeRef == "dateTime"
  }

  /** Some output entry is an expression of the package. */
  predicate OutNames(t: Table, pkg: string) {
    exists r | 0 <= r < |t.rows| :: TextsName(t.rows[r].outs, pkg)
  }

  predicate DateTimeLabel(t: Table) {
    exists i | 0 <= i < |t.columns| :: t.columns[i].name == "DateTime"
  }

  predicate NumberOutput(t: Table) {
    exists i | 0 <= i < |t.outputs| :: t.outputs[i].typeRef == "number"
  }

  /** The imports that the compiler chooses are the right ones: it imports `time` for
      the label DateTime, and `math` for a number output. */
  predicate ImportsWf(t: Table) {
    && (DateTimeLabel(t) <==> TimeCell(t) || OutNames(t, "time"))
    && (OutNames(t, "math") ==> NumberOutput(t))
  }

  /** Every column has an input of its type. */
  predicate WellTyped(columns: seq<Column>, inputs: Inputs) {
    forall i | 0 <= i < |columns| ::
      columns[i].name in inputs && HasType(inputs[columns[i].name], ColumnType(columns[i].typeRef))
  }

  predicate CellAccepts(row: Row, columns: seq<Column>, i: nat, inputs: Inputs)
    requires RowWf(row, columns) && WellTyped(columns, inputs) && i < |row.cells|
  {
    Accepts(row.cells[i], columns[i].typeRef, inputs[columns[i].name])
  }

  predicate RowHolds(row: Row, columns: seq<Column>, inputs: Inputs)
    requires RowWf(row, columns) && WellTyped(columns, inputs)
  {
    forall i | 0 <= i < |row.cells| :: CellAccepts(row, columns, i, inputs)
  }

  function DefaultOut(o: OutColumn): string {
    if o.typeRef == "number" then "math.NaN()"
    else if o.typeRef == "boolean" then "false"
    else "\"\""
  }

  function Defaults(outputs: seq<OutColumn>): seq<string> {
    if outputs == [] then [] else [DefaultOut(outputs[0])] + Defaults(outputs[1..])
  }

  /** The direct interpreter: the outputs of the first row that holds. */
  function Decide(rows: seq<Row>, columns: seq<Column>, otherwise: seq<string>, inputs: Inputs): seq<string>
    requires forall r | 0 <= r < |rows| :: RowWf(rows[r], columns)
    requires WellTyped(columns, inputs)
  {
    if rows == [] then otherwise
    else if RowHolds(rows[0], columns, inputs) then rows[0].outs
    else Decide(rows[1..], columns, otherwise, inputs)
  }

  function Decision(t: Table, inputs: Inputs): seq<string>
    requires TableWf(t) && WellTyped(t.columns, inputs)
  {
    Decide(t.rows, t.columns, Defaults(t.outputs), inputs)
  }
}
