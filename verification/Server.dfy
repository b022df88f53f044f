/**
 The server that drpdb talks to, as far as the uploaded commands reach it: tables with typed columns, the loading of
 a data file, and the conversions that loading applies. A LOAD DATA LOCAL never stops at a bad value: a number is
 clamped, a string is cut, an unknown label becomes "", and a row whose primary key is already there is skipped.
 */
module Server {
  import opened StringUtils
  import opened LoadDialect
  import opened SqlParser
  import opened Powers
  import Decimal

  datatype Cell = IntegerCell(n: int) | TextCell(s: string) | BitCell(n: int) | LabelCell(s: string)

  datatype ColumnDef = ColumnDef(name: string, ty: ColumnType)

  datatype Table = Table(columns: seq<ColumnDef>, primary: Option<string>, rows: seq<seq<Cell>>)

  type Database = map<string, Table>

  // ----------------------------------------------------------- conversions

  function Clamp(n: int, low: int, high: int): int {
    if n < low then low else if n > high then high else n
  }

  function Number(text: string): int {
    match Decimal.Parse(text)
    case None => 0
    case Some(n) => n
  }

  /** A number stored in an integer column; unsigned columns start at 0. */
  function IntegerInto(bits: nat, unsigned: bool, n: int): int {
    if bits == 0 then 0
    else if unsigned then Clamp(n, 0, Power2(bits) - 1)
    else Clamp(n, -(Power2(bits - 1) as int), Power2(bits - 1) - 1)
  }

  /** The bytes of a string as one number, which is what a BIT column makes of text. */
  function BytesAsNumber(text: string): nat {
    if text == "" then 0 else 256 * BytesAsNumber(text[..|text| - 1]) + text[|text| - 1] as int
  }

  /** A field of the file stored in a column of this type. */
  function FieldInto(ty: ColumnType, text: string): Cell {
    match ty
    case IntegerColumn(bits, unsigned) => IntegerCell(IntegerInto(bits, unsigned, Number(text)))
    case VarcharColumn(length) => TextCell(if |text| <= length then text else text[..length])
    case BitColumn(width) => BitCell(Clamp(BytesAsNumber(text), 0, Power2(width) - 1))
    case EnumColumn(names) => LabelCell(if text in names then text else "")
  }

  /** A number stored in a column of this type. */
  function NumberInto(ty: ColumnType, n: int): Cell {
    match ty
    case IntegerColumn(bits, unsigned) => IntegerCell(IntegerInto(bits, unsigned, n))
    case VarcharColumn(length) => FieldInto(ty, Decimal.Printed(n))
    case BitColumn(width) => BitCell(Clamp(n, 0, Power2(width) - 1))
    case EnumColumn(names) => LabelCell(if 0 < n <= |names| then names[n - 1] else "")
  }

  /** What a NOT NULL column holds when a row has nothing for it. */
  function Default(ty: ColumnType): Cell {
    match ty
    case EnumColumn(names) => LabelCell(if names == [] then "" else names[0])
    case VarcharColumn(_) => TextCell("")
    case _ => NumberInto(ty, 0)
  }

  /** `CAST(text AS UNSIGNED)` */
  function CastUnsigned(text: string): int {
    var n := Number(text);
    Clamp(if n < 0 then n + Power2(64) else n, 0, Power2(64) - 1)
  }

  // ----------------------------------------------------------------- names

  function Lower(c: char): char {
    if 'A' as int <= c as int <= 'Z' as int then (c as int + 32) as char else c
  }

  function Folded(name: string): string {
    if name == "" then "" else [Lower(name[0])] + Folded(name[1..])
  }

  /** Names of columns and of variables are compared without regard to case. */
  predicate SameName(a: string, b: string) {
    Folded(a) == Folded(b)
  }

  predicate SameTarget(a: Target, b: Target) {
    a.Variable? == b.Variable? && SameName(a.name, b.name)
  }

  // --------------------------------------------------------------- loading

  /** The field that goes to a target. */
  function FieldFor(target: Target, targets: seq<Target>, fields: seq<Field>): Option<Field>
    decreases |targets|
  {
    if targets == [] || fields == [] then None
    else if SameTarget(targets[0], target) then Some(fields[0])
    else FieldFor(target, targets[1..], fields[1..])
  }

  /** The variable assigned to a column. */
  function VariableFor(column: string, assignments: seq<Assignment>): Option<string> {
    if assignments == [] then None
    else if SameName(assignments[0].column, column) then Some(assignments[0].variable)
    else VariableFor(column, assignments[1..])
  }

  /** One column of the new row: assigned by the SET clause, or filled from the file, or left to its default. */
  function CellFor(c: ColumnDef, targets: seq<Target>, assignments: seq<Assignment>, fields: seq<Field>): Cell {
    match VariableFor(c.name, assignments)
    case Some(variable) =>
      (match FieldFor(Variable(variable), targets, fields)
       case Some(Datum(text)) => NumberInto(c.ty, CastUnsigned(text))
       case _ => Default(c.ty))
    case None =>
      match FieldFor(Column(c.name), targets, fields)
      case Some(Datum(text)) => FieldInto(c.ty, text)
      case _ => Default(c.ty)
  }

  function RowFrom(columns: seq<ColumnDef>, targets: seq<Target>, assignments: seq<Assignment>, fields: seq<Field>)
      : (row: seq<Cell>)
    ensures |row| == |columns|
  {
    if columns == [] then []
    else [CellFor(columns[0], targets, assignments, fields)] + RowFrom(columns[1..], targets, assignments, fields)
  }

  function RowsFrom(columns: seq<ColumnDef>, targets: seq<Target>, assignments: seq<Assignment>, lines: seq<seq<Field>>)
      : (rows: seq<seq<Cell>>)
    ensures |rows| == |lines| && forall row :: row in rows ==> |row| == |columns|
  {
    if lines == [] then []
    else [RowFrom(columns, targets, assignments, lines[0])] + RowsFrom(columns, targets, assignments, lines[1..])
  }

  /** The position of a column; the number of columns when there is none of that name. */
  function IndexOf(columns: seq<ColumnDef>, name: string): (i: nat)
    ensures i <= |columns|
  {
    if columns == [] || SameName(columns[0].name, name) then 0 else 1 + IndexOf(columns[1..], name)
  }

  predicate SameKey(key: nat, a: seq<Cell>, b: seq<Cell>) {
    key < |a| && key < |b| && a[key] == b[key]
  }

  predicate HasKey(key: nat, rows: seq<seq<Cell>>, row: seq<Cell>) {
    exists other :: other in rows && SameKey(key, other, row)
  }

  /** Rows go in one by one; one whose primary key is already there is skipped. */
  function Insert(key: Option<nat>, rows: seq<seq<Cell>>, incoming: seq<seq<Cell>>): seq<seq<Cell>>
    decreases |incoming|
  {
    if incoming == [] then rows
    else if key.Some? && HasKey(key.value, rows, incoming[0]) then Insert(key, rows, incoming[1..])
    else Insert(key, rows + [incoming[0]], incoming[1..])
  }

  function KeyIndex(columns: seq<ColumnDef>, primary: Option<string>): Option<nat> {
    match primary
    case None => None
    case Some(name) => Some(IndexOf(columns, name))
  }

  predicate KnowsTarget(columns: seq<ColumnDef>, target: Target) {
    target.Variable? || IndexOf(columns, target.name) < |columns|
  }

  function LoadInto(table: Table, load: Statement, text: string): Option<Table>
    requires load.LoadData?
  {
    if |load.fieldsBy| != 1 || load.enclosedBy != "\"" || load.linesBy != "\n" then None
    else if exists target :: target in load.targets && !KnowsTarget(table.columns, target) then None
    else if exists a :: a in load.assignments && IndexOf(table.columns, a.column) == |table.columns| then None
    else
      var lines :- ReadFile(text, load.fieldsBy[0]);
      var rows := RowsFrom(table.columns, load.targets, load.assignments, lines);
      Some(table.(rows := Insert(KeyIndex(table.columns, table.primary), table.rows, rows)))
  }

  // -------------------------------------------------------------- creating

  function ColumnsIn(items: seq<Item>): seq<ColumnDef> {
    if items == [] then []
    else (if items[0].ColumnItem? then [ColumnDef(items[0].name, items[0].ty)] else []) + ColumnsIn(items[1..])
  }

  function PrimariesIn(items: seq<Item>): seq<string> {
    if items == [] then []
    else (if items[0].KeyItem? && items[0].primary then [items[0].name] else []) + PrimariesIn(items[1..])
  }

  predicate DistinctColumns(columns: seq<ColumnDef>) {
    columns == [] || (IndexOf(columns[1..], columns[0].name) == |columns| - 1 && DistinctColumns(columns[1..]))
  }

  /** Every key names a column. */
  predicate KeysExist(columns: seq<ColumnDef>, items: seq<Item>) {
    forall item :: item in items && item.KeyItem? ==> IndexOf(columns, item.name) < |columns|
  }

  /** The bytes that a MyISAM key has at most; a character of a string takes one or more. */
  const MAX_KEY_BYTES := 1000

  predicate TooWideForKey(ty: ColumnType) {
    ty.VarcharColumn? && ty.length > MAX_KEY_BYTES
  }

  predicate WideAt(columns: seq<ColumnDef>, name: string) {
    IndexOf(columns, name) < |columns| && TooWideForKey(columns[IndexOf(columns, name)].ty)
  }

  /** One of the primary keys is on a column that is too wide. */
  predicate PrimaryTooWide(columns: seq<ColumnDef>, primaries: seq<string>) {
    exists name :: name in primaries && WideAt(columns, name)
  }

  /**
   An empty table, unless two columns share a name, two primary keys are asked for, a key has no column, or the primary
   key is too wide.
   */
  function NewTable(items: seq<Item>): Option<Table> {
    var columns, primaries := ColumnsIn(items), PrimariesIn(items);
    if columns == [] || !DistinctColumns(columns) || |primaries| > 1 || !KeysExist(columns, items)
       || PrimaryTooWide(columns, primaries)
    then None
    else Some(Table(columns, if primaries == [] then None else Some(primaries[0]), []))
  }

  // ------------------------------------------------------------- execution

  predicate IsSlash(c: char) {
    c == '\\' || c == '/'
  }

  /** A part of a Windows path: slashes are backslashes, and a run of them counts once. */
  function Normal(path: string, afterSlash: bool): string {
    if path == "" then ""
    else if IsSlash(path[0]) then (if afterSlash then "" else "\\") + Normal(path[1..], true)
    else [path[0]] + Normal(path[1..], false)
  }

  /** Two slashes in front are kept apart from one: they begin the name of a network share. */
  function FileNamed(path: string): string {
    if |path| >= 2 && IsSlash(path[0]) && IsSlash(path[1]) then "\\\\" + Normal(path[2..], true)
    else Normal(path, false)
  }

  /** What a command can reach besides the tables: the files, and the procedure commands the server takes. */
  datatype World = World(files: map<string, string>, procedures: set<string>)

  /**
   One command; None is an error reply. Of the other commands, those that define procedures change no table, and the
   server refuses the rest.
   */
  function Execute(db: Database, world: World, command: string): Option<Database> {
    match Parse(command)
    case None => if command in world.procedures then Some(db) else None
    case Some(DropTable(name)) => Some(db - {name})
    case Some(CreateTable(name, items, _)) =>
      if name in db then None
      else
        var table :- NewTable(items);
        Some(db[name := table])
    case Some(load) =>
      if load.table !in db || FileNamed(load.path) !in world.files then None
      else
        var table :- LoadInto(db[load.table], load, world.files[FileNamed(load.path)]);
        Some(db[load.table := table])
  }
}
