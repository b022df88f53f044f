/** What the generated LOAD DATA command makes of the generated file, and when that is the table that was exported. */
module TableRoundTrip {
  import opened StringUtils
  import opened Reflection
  import opened LoadDialect
  import opened SqlParser
  import opened Server
  import opened Powers
  import opened CsvWriter
  import opened CsvRoundTrip
  import opened SchemaRoundTrip
  import Decimal

  // --------------------------------------------------------------- columns

  function DefOf(m: Member): ColumnDef {
    ColumnDef(ColumnName(m), ColumnTypeOf(m.ty))
  }

  function DefsOf(members: seq<Member>): (defs: seq<ColumnDef>)
    ensures |defs| == |members|
  {
    if members == [] then [] else [DefOf(members[0])] + DefsOf(members[1..])
  }

  /** No two members ask for the same column. */
  predicate DistinctNamesOf(members: seq<Member>) {
    members == [] || (!Named(members[1..], ColumnName(members[0])) && DistinctNamesOf(members[1..]))
  }

  predicate Named(members: seq<Member>, name: string) {
    exists m :: m in members && SameName(ColumnName(m), name)
  }

  function PrimariesOf(members: seq<Member>): seq<string> {
    if members == [] then []
    else (if Keyed(members[0]) && members[0].key.PrimaryKey? then [members[0].name] else []) + PrimariesOf(members[1..])
  }

  lemma {:induction false} NamedStep(members: seq<Member>, name: string)
    requires members != []
    ensures Named(members, name) <==> SameName(ColumnName(members[0]), name) || Named(members[1..], name)
  {
    assert members[0] in members && forall m :: m in members <==> m == members[0] || m in members[1..];
  }

  lemma {:induction false} IndexOfDef(members: seq<Member>, name: string)
    ensures IndexOf(DefsOf(members), name) < |members| <==> Named(members, name)
    ensures IndexOf(DefsOf(members), name) <= |members|
    ensures IndexOf(DefsOf(members), name) < |members| ==>
      SameName(ColumnName(members[IndexOf(DefsOf(members), name)]), name)
  {
    if members != [] {
      IndexOfDef(members[1..], name);
      NamedStep(members, name);
    }
  }

  lemma {:induction false} DistinctDefs(members: seq<Member>)
    ensures DistinctColumns(DefsOf(members)) <==> DistinctNamesOf(members)
  {
    if members != [] {
      DistinctDefs(members[1..]);
      IndexOfDef(members[1..], ColumnName(members[0]));
    }
  }

  lemma {:induction false} ColumnsInAppend(a: seq<Item>, b: seq<Item>)
    ensures ColumnsIn(a + b) == ColumnsIn(a) + ColumnsIn(b)
  {
    if a == [] {
      assert a + b == b;
    } else {
      var head := if a[0].ColumnItem? then [ColumnDef(a[0].name, a[0].ty)] else [];
      assert (a + b)[1..] == a[1..] + b;
      ColumnsInAppend(a[1..], b);
      assert head + (ColumnsIn(a[1..]) + ColumnsIn(b)) == head + ColumnsIn(a[1..]) + ColumnsIn(b);
    }
  }

  lemma {:induction false} PrimariesInAppend(a: seq<Item>, b: seq<Item>)
    ensures PrimariesIn(a + b) == PrimariesIn(a) + PrimariesIn(b)
  {
    if a == [] {
      assert a + b == b;
    } else {
      assert (a + b)[1..] == a[1..] + b;
      PrimariesInAppend(a[1..], b);
    }
  }

  lemma {:induction false} ItemsOfColumns(members: seq<Member>)
    ensures ColumnsIn(ColumnsOf(members)) == DefsOf(members) && PrimariesIn(ColumnsOf(members)) == []
    ensures forall item :: item in ColumnsOf(members) ==> item.ColumnItem?
  {
    if members != [] {
      ItemsOfColumns(members[1..]);
    }
  }

  lemma {:induction false} ItemsOfKeys(members: seq<Member>)
    ensures ColumnsIn(KeysOf(members)) == [] && PrimariesIn(KeysOf(members)) == PrimariesOf(members)
    ensures forall item :: item in KeysOf(members) ==> item.KeyItem? && Named(members, item.name)
  {
    if members != [] {
      var m := members[0];
      ItemsOfKeys(members[1..]);
      assert m in members && forall x :: x in members[1..] ==> x in members;
      assert forall name :: Named(members[1..], name) ==> Named(members, name);
      if Keyed(m) {
        assert KeysOf(members)[1..] == KeysOf(members[1..]);
        assert ColumnName(m) == m.name;
      } else {
        assert KeysOf(members) == KeysOf(members[1..]);
      }
    }
  }

  /** No primary key is asked for on a string. */
  predicate NoPrimaryString(members: seq<Member>) {
    members == [] ||
    (!(members[0].key.PrimaryKey? && members[0].ty.Characters?) && NoPrimaryString(members[1..]))
  }

  /** What the server asks of a member list in order to make the table. */
  predicate Creatable(members: seq<Member>) {
    DistinctNamesOf(members) && |PrimariesOf(members)| <= 1 && NoPrimaryString(members)
  }

  lemma {:induction false} PrimaryNames(members: seq<Member>)
    ensures forall name :: name in PrimariesOf(members) ==> Named(members, name)
  {
    if members != [] {
      PrimaryNames(members[1..]);
      var m := members[0];
      assert m in members && forall x :: x in members[1..] ==> x in members;
      assert forall name :: Named(members[1..], name) ==> Named(members, name);
      assert Keyed(m) ==> ColumnName(m) == m.name;
    }
  }

  /** The column of the primary key is too wide exactly when its member is a string. */
  lemma {:induction false} WidePrimary(members: seq<Member>)
    requires DistinctNamesOf(members)
    ensures PrimaryTooWide(DefsOf(members), PrimariesOf(members)) <==> !NoPrimaryString(members)
  {
    if members == [] {
    } else {
      var m, rest := members[0], members[1..];
      var defs, primaries := DefsOf(members), PrimariesOf(members);
      WidePrimary(rest);
      PrimaryNames(rest);
      forall name | name in PrimariesOf(rest)
        ensures IndexOf(defs, name) == 1 + IndexOf(DefsOf(rest), name)
      {
        assert Named(rest, name);
      }
      if Keyed(m) && m.key.PrimaryKey? {
        assert ColumnName(m) == m.name && IndexOf(defs, m.name) == 0;
        assert primaries == [m.name] + PrimariesOf(rest);
      } else {
        assert primaries == PrimariesOf(rest);
      }
      WidePrimaryStep(defs, primaries, DefsOf(rest), PrimariesOf(rest), m);
    }
  }

  lemma {:induction false} WidePrimaryStep(
      defs: seq<ColumnDef>, primaries: seq<string>, others: seq<ColumnDef>, behind: seq<string>, m: Member)
    requires defs == [DefOf(m)] + others
    requires forall name :: name in behind ==> IndexOf(defs, name) == 1 + IndexOf(others, name)
    requires primaries == if Keyed(m) && m.key.PrimaryKey? then [ColumnName(m)] + behind else behind
    ensures PrimaryTooWide(defs, primaries) <==>
      (m.key.PrimaryKey? && m.ty.Characters?) || PrimaryTooWide(others, behind)
  {
    forall name
      ensures name in behind ==> (WideAt(defs, name) <==> WideAt(others, name))
      ensures name == ColumnName(m) ==> (WideAt(defs, name) <==> TooWideForKey(DefOf(m).ty))
    {
      assert name in behind && IndexOf(others, name) < |others| ==>
        defs[1 + IndexOf(others, name)] == others[IndexOf(others, name)];
    }
    if m.key.PrimaryKey? && m.ty.Characters? {
      assert ColumnName(m) in primaries && WideAt(defs, ColumnName(m));
    }
  }

  /**
   The server creates the table, with the columns in member order, exactly when no two columns share a name, at most one
   member is a primary key, and that one is no string.
   */
  lemma {:induction false} TableIsCreated(members: seq<Member>)
    requires members != []
    ensures NewTable(ColumnsOf(members) + KeysOf(members)).Some? <==> Creatable(members)
    ensures Creatable(members) ==>
      NewTable(ColumnsOf(members) + KeysOf(members))
      == Some(Table(DefsOf(members), if PrimariesOf(members) == [] then None else Some(PrimariesOf(members)[0]), []))
  {
    var items := ColumnsOf(members) + KeysOf(members);
    ColumnsInAppend(ColumnsOf(members), KeysOf(members));
    PrimariesInAppend(ColumnsOf(members), KeysOf(members));
    ItemsOfColumns(members);
    ItemsOfKeys(members);
    DistinctDefs(members);
    if DistinctNamesOf(members) {
      WidePrimary(members);
    }
    assert ColumnsIn(items) == DefsOf(members) && PrimariesIn(items) == PrimariesOf(members);
    forall item | item in items && item.KeyItem?
      ensures IndexOf(DefsOf(members), item.name) < |members|
    {
      assert item in KeysOf(members);
      IndexOfDef(members, item.name);
    }
  }

  // ------------------------------------------------------- where fields go

  /** The first member decides, or the others do. */
  lemma {:induction false} VariableStep(members: seq<Member>, name: string)
    requires members != []
    ensures VariableFor(name, AssignmentsOf(members))
         == if members[0].ty.Boolean? && SameName(members[0].name, name) then Some("tmp_" + members[0].name)
            else VariableFor(name, AssignmentsOf(members[1..]))
  {
    if members[0].ty.Boolean? {
      assert AssignmentsOf(members)[1..] == AssignmentsOf(members[1..]);
    } else {
      assert AssignmentsOf(members) == AssignmentsOf(members[1..]);
    }
  }

  lemma {:induction false} VariableOfMember(members: seq<Member>, i: nat)
    requires i < |members| && DistinctNamesOf(members)
    ensures VariableFor(ColumnName(members[i]), AssignmentsOf(members))
         == if members[i].ty.Boolean? then Some("tmp_" + members[i].name) else None
    decreases |members|
  {
    VariableStep(members, ColumnName(members[i]));
    if i > 0 {
      assert members[i] == members[1..][i - 1] && members[i] in members[1..];
      assert !SameName(ColumnName(members[i]), ColumnName(members[0]));
      VariableOfMember(members[1..], i - 1);
    } else if !members[0].ty.Boolean? {
      NoVariable(members[1..], ColumnName(members[0]));
    }
  }

  lemma {:induction false} NoVariable(members: seq<Member>, name: string)
    requires !Named(members, name)
    ensures VariableFor(name, AssignmentsOf(members)) == None
  {
    if members != [] {
      assert members[0] in members && forall m :: m in members[1..] ==> m in members;
      assert !SameName(ColumnName(members[0]), name) && !Named(members[1..], name);
      VariableStep(members, name);
      NoVariable(members[1..], name);
    }
  }

  /** The load list goes through the columns of the table in their order; a `bool` is read into its variable. */
  lemma {:induction false} LoadListFollowsColumns(members: seq<Member>, i: nat)
    requires i < |members|
    ensures ColumnsOf(members)[i].name == DefsOf(members)[i].name
    ensures TargetsOf(members)[i]
         == if members[i].ty.Boolean? then Variable("tmp_" + ColumnsOf(members)[i].name)
            else Column(ColumnsOf(members)[i].name)
  {
    if i > 0 {
      LoadListFollowsColumns(members[1..], i - 1);
      assert members[1..][i - 1] == members[i];
    }
  }

  function TimesAssigned(column: string, assignments: seq<Assignment>): nat {
    if assignments == [] then 0
    else (if SameName(assignments[0].column, column) then 1 else 0) + TimesAssigned(column, assignments[1..])
  }

  lemma {:induction false} TimesAssignedStep(members: seq<Member>, name: string)
    requires members != []
    ensures TimesAssigned(name, AssignmentsOf(members))
         == (if members[0].ty.Boolean? && SameName(members[0].name, name) then 1 else 0)
            + TimesAssigned(name, AssignmentsOf(members[1..]))
  {
    if members[0].ty.Boolean? {
      assert AssignmentsOf(members)[1..] == AssignmentsOf(members[1..]);
    } else {
      assert AssignmentsOf(members) == AssignmentsOf(members[1..]);
    }
  }

  lemma {:induction false} NeverAssigned(members: seq<Member>, name: string)
    requires !Named(members, name)
    ensures TimesAssigned(name, AssignmentsOf(members)) == 0
  {
    if members != [] {
      assert members[0] in members && forall m :: m in members[1..] ==> m in members;
      assert !SameName(ColumnName(members[0]), name) && !Named(members[1..], name);
      TimesAssignedStep(members, name);
      NeverAssigned(members[1..], name);
    }
  }

  /** The SET clause assigns to the column of each `bool` once, from its variable, and to no other column. */
  lemma {:induction false} FlagsAreAssignedOnce(members: seq<Member>, i: nat)
    requires i < |members| && DistinctNamesOf(members)
    ensures TimesAssigned(ColumnName(members[i]), AssignmentsOf(members)) == if members[i].ty.Boolean? then 1 else 0
    ensures VariableFor(ColumnName(members[i]), AssignmentsOf(members))
         == if members[i].ty.Boolean? then Some("tmp_" + members[i].name) else None
    decreases |members|
  {
    VariableOfMember(members, i);
    TimesAssignedStep(members, ColumnName(members[i]));
    if i > 0 {
      assert members[i] == members[1..][i - 1] && members[i] in members[1..];
      assert !SameName(ColumnName(members[i]), ColumnName(members[0]));
      FlagsAreAssignedOnce(members[1..], i - 1);
    } else {
      NeverAssigned(members[1..], ColumnName(members[0]));
    }
  }

  lemma {:induction false} FoldedAppend(a: string, b: string)
    ensures Folded(a + b) == Folded(a) + Folded(b)
  {
    if a == "" {
      assert a + b == b;
    } else {
      assert (a + b)[1..] == a[1..] + b;
      FoldedAppend(a[1..], b);
    }
  }

  lemma {:induction false} TargetsDiffer(a: Member, b: Member)
    requires !SameName(ColumnName(a), ColumnName(b))
    ensures !SameTarget(TargetOf(a), TargetOf(b))
  {
    if a.ty.Boolean? && b.ty.Boolean? {
      FoldedAppend("tmp_", a.name);
      FoldedAppend("tmp_", b.name);
      var tmp := Folded("tmp_");
      assert (tmp + Folded(a.name))[|tmp|..] == Folded(a.name) && (tmp + Folded(b.name))[|tmp|..] == Folded(b.name);
    }
  }

  /** Field i goes to the target of member i. */
  lemma {:induction false} FieldOfMember(members: seq<Member>, fields: seq<Field>, i: nat)
    requires i < |members| == |fields| && DistinctNamesOf(members)
    ensures FieldFor(TargetOf(members[i]), TargetsOf(members), fields) == Some(fields[i])
    decreases |members|
  {
    if i > 0 {
      assert members[i] == members[1..][i - 1];
      assert !SameName(ColumnName(members[i]), ColumnName(members[0]));
      TargetsDiffer(members[0], members[i]);
      FieldOfMember(members[1..], fields[1..], i - 1);
    }
  }

  // ------------------------------------------------------------ stored rows

  const MAX_VARCHAR := 2047

  /** What the table holds for a value. */
  function StoredCell(ty: MemberType, v: Value): Cell {
    match v
    case Number(n) => IntegerCell(n)
    case Chars(s) => TextCell(if |s| <= MAX_VARCHAR then s else s[..MAX_VARCHAR])
    case Flag(b) => BitCell(if b then 1 else 0)
    case Code(c) => LabelCell(if ty.Enumeration? then EnumeratorName(ty.enumerators, c) else "")
  }

  function StoredRow(members: seq<Member>, row: Row): (stored: seq<Cell>)
    requires |row| == |members|
    ensures |stored| == |row|
    decreases |row|
  {
    if row == [] then [] else [StoredCell(members[0].ty, row[0])] + StoredRow(members[1..], row[1..])
  }

  function StoredRows(members: seq<Member>, rows: seq<Row>): (stored: seq<seq<Cell>>)
    requires Aligned(rows, members)
    ensures |stored| == |rows|
  {
    if rows == [] then [] else [StoredRow(members, rows[0])] + StoredRows(members, rows[1..])
  }

  lemma {:induction false} ColumnWidths()
    ensures Power2(31) == 0x8000_0000 && Power2(32) == 0x1_0000_0000
    ensures Power2(63) == 0x8000_0000_0000_0000 && Power2(64) == 0x1_0000_0000_0000_0000
    ensures Power2(1) == 2
  {
    assert Power2(4) == 2 * Power2(3) == 4 * Power2(2) == 8 * Power2(1) == 16 * Power2(0);
    PowerOfSum(4, 4);
    PowerOfSum(8, 8);
    PowerOfSum(16, 16);
    PowerOfSum(32, 32);
    assert Power2(32) == 2 * Power2(31) && Power2(64) == 2 * Power2(63);
  }

  /** Every number of the C++ type fits the column type: no clamping. */
  lemma {:induction false} NumberFits(ty: MemberType, n: int)
    requires IsNumeric(ty) && InRange(ty, n)
    ensures FieldInto(ColumnTypeOf(ty), Decimal.Printed(n)) == IntegerCell(n)
  {
    ColumnWidths();
    Decimal.ParsePrinted(n);
  }

  lemma {:induction false} FlagThroughVariable(b: bool)
    ensures NumberInto(BitColumn(1), CastUnsigned(if b then "1" else "0")) == BitCell(if b then 1 else 0)
  {
    ColumnWidths();
    assert Decimal.Parse("1") == Some(1) && Decimal.Parse("0") == Some(0);
  }

  /** Without the variable a flag would be lost: read straight into its BIT(1) column, "0" and "1" both become 1. */
  lemma {:induction false} FlagReadDirectly(b: bool)
    ensures FieldInto(BitColumn(1), if b then "1" else "0") == BitCell(1)
  {
    ColumnWidths();
    assert "1"[..0] == "" && "0"[..0] == "";
    assert BytesAsNumber("1") == 49 && BytesAsNumber("0") == 48;
  }

  lemma {:induction false} CellOfMember(members: seq<Member>, row: Row, i: nat)
    requires i < |members| && RowHasType(row, members) && Spelled(members) && DistinctNamesOf(members)
    ensures CellFor(DefOf(members[i]), TargetsOf(members), AssignmentsOf(members), Data(members, row, true))
         == StoredCell(members[i].ty, row[i])
  {
    var m, v := members[i], row[i];
    VariableOfMember(members, i);
    FieldOfMember(members, Data(members, row, true), i);
    DataAt(members, row, true, i);
    assert HasType(v, m.ty) && NamesAreNames(m.ty);
    match v
    case Number(n) => NumberFits(m.ty, n);
    case Chars(s) =>
    case Flag(b) => FlagThroughVariable(b);
    case Code(c) => LabelOfCode(m.ty.enumerators, c);
  }

  lemma {:induction false} LabelOfCode(enumerators: seq<Enumerator>, code: int)
    requires forall e :: e in enumerators ==> IsName(e.name)
    ensures FieldInto(EnumColumn(Names(enumerators)), EnumeratorName(enumerators, code))
         == LabelCell(EnumeratorName(enumerators, code))
  {
    if Listed(enumerators, code) {
      NameIsListed(enumerators, code);
    } else {
      NoName(enumerators, code);
    }
  }

  lemma {:induction false} RowIsStored(members: seq<Member>, row: Row, k: nat)
    requires k <= |members| && RowHasType(row, members) && Spelled(members) && DistinctNamesOf(members)
    ensures RowFrom(DefsOf(members[k..]), TargetsOf(members), AssignmentsOf(members), Data(members, row, true))
         == StoredRow(members[k..], row[k..])
    decreases |members| - k
  {
    if k < |members| {
      assert members[k..][1..] == members[k + 1..] && row[k..][1..] == row[k + 1..];
      CellOfMember(members, row, k);
      RowIsStored(members, row, k + 1);
    }
  }

  lemma {:induction false} RowsAreStored(members: seq<Member>, rows: seq<Row>)
    requires RowsHaveType(rows, members) && Spelled(members) && DistinctNamesOf(members)
    ensures RowsFrom(DefsOf(members), TargetsOf(members), AssignmentsOf(members), DataOfAll(members, rows, true))
         == StoredRows(members, rows)
  {
    if rows != [] {
      assert rows[0] in rows && forall row :: row in rows[1..] ==> row in rows;
      assert members[0..] == members && rows[0][0..] == rows[0];
      RowIsStored(members, rows[0], 0);
      RowsAreStored(members, rows[1..]);
    }
  }

  // -------------------------------------------------- back to the exported

  /** The value that a cell stands for in a member of this type. */
  function CellValue(ty: MemberType, cell: Cell): Option<Value> {
    match cell
    case IntegerCell(n) => if IsNumeric(ty) then Some(Number(n)) else None
    case TextCell(s) => if ty.Characters? then Some(Chars(s)) else None
    case BitCell(n) => if ty.Boolean? then Some(Flag(n == 1)) else None
    case LabelCell(name) =>
      if ty.Enumeration? then
        var code :- CodeOf(ty.enumerators, name);
        Some(Code(code))
      else None
  }

  function RowValue(members: seq<Member>, cells: seq<Cell>): Option<Row>
    decreases |members|
  {
    if members == [] && cells == [] then Some([])
    else if members == [] || cells == [] then None
    else
      var v :- CellValue(members[0].ty, cells[0]);
      var tail :- RowValue(members[1..], cells[1..]);
      Some([v] + tail)
  }

  function RowsValue(members: seq<Member>, table: seq<seq<Cell>>): Option<seq<Row>> {
    if table == [] then Some([])
    else
      var row :- RowValue(members, table[0]);
      var tail :- RowsValue(members, table[1..]);
      Some([row] + tail)
  }

  /** What a column can lose: the end of a long string, and an enumeration value that is not listed. */
  predicate Fits(ty: MemberType, v: Value) {
    (v.Chars? ==> |v.s| <= MAX_VARCHAR) && Writable(ty, v)
  }

  predicate RowFits(members: seq<Member>, row: Row)
    requires |row| == |members|
    decreases |row|
  {
    row == [] || (Fits(members[0].ty, row[0]) && RowFits(members[1..], row[1..]))
  }

  predicate RowsFit(members: seq<Member>, rows: seq<Row>)
    requires Aligned(rows, members)
  {
    rows == [] || (RowFits(members, rows[0]) && RowsFit(members, rows[1..]))
  }

  lemma {:induction false} CellBack(ty: MemberType, v: Value)
    requires HasType(v, ty) && NamesAreNames(ty) && (ty.Enumeration? ==> DistinctNames(ty.enumerators))
    ensures CellValue(ty, StoredCell(ty, v)) == Some(v) <==> Fits(ty, v)
  {
    if v.Code? {
      CodeOfName(ty.enumerators, v.c);
    }
  }

  lemma {:induction false} StoredRowBack(members: seq<Member>, row: Row)
    requires RowHasType(row, members) && Spelled(members) && DistinctSpellings(members)
    ensures RowValue(members, StoredRow(members, row)) == Some(row) <==> RowFits(members, row)
    decreases |members|
  {
    if members != [] {
      TailHasType(members, row);
      assert members[0] in members && forall m :: m in members[1..] ==> m in members;
      CellBack(members[0].ty, row[0]);
      StoredRowBack(members[1..], row[1..]);
      assert row == [row[0]] + row[1..];
    }
  }

  lemma {:induction false} StoredRowsBack(members: seq<Member>, rows: seq<Row>)
    requires RowsHaveType(rows, members) && Spelled(members) && DistinctSpellings(members)
    ensures RowsValue(members, StoredRows(members, rows)) == Some(rows) <==> RowsFit(members, rows)
  {
    if rows != [] {
      assert rows[0] in rows && forall row :: row in rows[1..] ==> row in rows;
      StoredRowBack(members, rows[0]);
      StoredRowsBack(members, rows[1..]);
      assert rows == [rows[0]] + rows[1..];
    }
  }

  // --------------------------------------------------------------- the key

  /** The member whose column is the primary key. */
  function KeyOf(members: seq<Member>): Option<nat> {
    KeyIndex(DefsOf(members), if PrimariesOf(members) == [] then None else Some(PrimariesOf(members)[0]))
  }

  lemma {:induction false} KeyIsMember(members: seq<Member>)
    ensures KeyOf(members).Some? ==> KeyOf(members).value < |members|
  {
    if PrimariesOf(members) != [] {
      PrimaryIsNamed(members);
      IndexOfDef(members, PrimariesOf(members)[0]);
    }
  }

  lemma {:induction false} PrimaryIsNamed(members: seq<Member>)
    requires PrimariesOf(members) != []
    ensures Named(members, PrimariesOf(members)[0])
  {
    var m := members[0];
    assert m in members && forall x :: x in members[1..] ==> x in members;
    if Keyed(m) && m.key.PrimaryKey? {
      assert ColumnName(m) == m.name;
    } else {
      assert PrimariesOf(members) == PrimariesOf(members[1..]);
      PrimaryIsNamed(members[1..]);
    }
  }

  /** No two rows agree on the primary key. */
  predicate KeysDiffer(key: Option<nat>, rows: seq<Row>)
    requires key.Some? ==> forall row :: row in rows ==> key.value < |row|
  {
    key.Some? ==> forall i, j :: 0 <= i < j < |rows| ==> rows[i][key.value] != rows[j][key.value]
  }

  /** Every incoming row brings a new key. */
  predicate Fresh(key: Option<nat>, rows: seq<seq<Cell>>, incoming: seq<seq<Cell>>)
    decreases |incoming|
  {
    incoming == [] ||
    (!(key.Some? && HasKey(key.value, rows, incoming[0])) && Fresh(key, rows + [incoming[0]], incoming[1..]))
  }

  /** Nothing is skipped exactly when every key is new; a skipped row is missing from the count. */
  lemma {:induction false} InsertKeepsAll(key: Option<nat>, rows: seq<seq<Cell>>, incoming: seq<seq<Cell>>)
    ensures |Insert(key, rows, incoming)| <= |rows| + |incoming|
    ensures Fresh(key, rows, incoming) <==> |Insert(key, rows, incoming)| == |rows| + |incoming|
    ensures Fresh(key, rows, incoming) ==> Insert(key, rows, incoming) == rows + incoming
    decreases |incoming|
  {
    if incoming == [] {
      assert rows + [] == rows;
    } else if key.Some? && HasKey(key.value, rows, incoming[0]) {
      InsertKeepsAll(key, rows, incoming[1..]);
    } else {
      InsertKeepsAll(key, rows + [incoming[0]], incoming[1..]);
      assert rows + [incoming[0]] + incoming[1..] == rows + incoming;
    }
  }

  predicate Clash(key: nat, all: seq<seq<Cell>>, i: nat, j: nat)
    requires i < |all| && j < |all|
  {
    SameKey(key, all[i], all[j])
  }

  lemma {:induction false} FreshIsPairwise(key: nat, all: seq<seq<Cell>>, n: nat)
    requires n <= |all|
    ensures Fresh(Some(key), all[..n], all[n..]) <==>
      forall i: nat, j: nat :: i < j < |all| && n <= j ==> !Clash(key, all, i, j)
    decreases |all| - n
  {
    if n < |all| {
      FreshIsPairwise(key, all, n + 1);
      assert all[..n] + [all[n]] == all[..n + 1] && all[n..][1..] == all[n + 1..];
      if HasKey(key, all[..n], all[n]) {
        var other :| other in all[..n] && SameKey(key, other, all[n]);
        var i :| 0 <= i < n && all[i] == other;
        assert Clash(key, all, i, n);
      } else {
        forall i: nat | i < n
          ensures !Clash(key, all, i, n)
        {
          assert all[i] in all[..n];
        }
      }
    }
  }

  lemma {:induction false} FreshWithoutClash(key: nat, all: seq<seq<Cell>>)
    requires forall i: nat, j: nat :: i < j < |all| ==> !Clash(key, all, i, j)
    ensures Fresh(Some(key), [], all)
  {
    assert all[..0] == [] && all[0..] == all;
    FreshIsPairwise(key, all, 0);
  }

  lemma {:induction false} StoredAt(members: seq<Member>, row: Row, k: nat)
    requires k < |row| == |members|
    ensures StoredRow(members, row)[k] == StoredCell(members[k].ty, row[k])
    decreases |row|
  {
    if k > 0 {
      StoredAt(members[1..], row[1..], k - 1);
    }
  }

  lemma {:induction false} StoredRowAt(members: seq<Member>, rows: seq<Row>, i: nat)
    requires Aligned(rows, members) && i < |rows|
    ensures StoredRows(members, rows)[i] == StoredRow(members, rows[i])
  {
    if i > 0 {
      StoredRowAt(members, rows[1..], i - 1);
    }
  }

  lemma {:induction false} RowFitsAt(members: seq<Member>, row: Row, k: nat)
    requires k < |row| == |members| && RowFits(members, row)
    ensures Fits(members[k].ty, row[k])
    decreases |row|
  {
    if k > 0 {
      RowFitsAt(members[1..], row[1..], k - 1);
    }
  }

  lemma {:induction false} RowsFitAt(members: seq<Member>, rows: seq<Row>, i: nat)
    requires Aligned(rows, members) && i < |rows| && RowsFit(members, rows)
    ensures RowFits(members, rows[i])
  {
    if i > 0 {
      RowsFitAt(members, rows[1..], i - 1);
    }
  }

  /** Equal keys clash; keys that fit clash only when they are equal. */
  lemma {:induction false} ClashOfKeys(members: seq<Member>, rows: seq<Row>, key: nat, i: nat, j: nat)
    requires RowsHaveType(rows, members) && Spelled(members) && DistinctSpellings(members)
    requires key < |members| && i < |rows| && j < |rows| && rows[i] in rows && rows[j] in rows
    ensures rows[i][key] == rows[j][key] ==> Clash(key, StoredRows(members, rows), i, j)
    ensures RowsFit(members, rows) && Clash(key, StoredRows(members, rows), i, j) ==> rows[i][key] == rows[j][key]
  {
    StoredRowAt(members, rows, i);
    StoredRowAt(members, rows, j);
    StoredAt(members, rows[i], key);
    StoredAt(members, rows[j], key);
    if RowsFit(members, rows) {
      RowsFitAt(members, rows, i);
      RowsFitAt(members, rows, j);
      RowFitsAt(members, rows[i], key);
      RowFitsAt(members, rows[j], key);
      assert members[key] in members && rows[i] in rows && rows[j] in rows;
      CellBack(members[key].ty, rows[i][key]);
      CellBack(members[key].ty, rows[j][key]);
    }
  }

  lemma {:induction false} RowsValueLength(members: seq<Member>, table: seq<seq<Cell>>)
    ensures RowsValue(members, table).Some? ==> |RowsValue(members, table).value| == |table|
  {
    if table != [] {
      RowsValueLength(members, table[1..]);
    }
  }

  /** The rows that end up in a table that starts empty. */
  function LoadedRows(members: seq<Member>, rows: seq<Row>): seq<seq<Cell>>
    requires Aligned(rows, members)
  {
    Insert(KeyOf(members), [], StoredRows(members, rows))
  }

  lemma {:induction false} FreshKeys(members: seq<Member>, rows: seq<Row>)
    requires RowsHaveType(rows, members) && Spelled(members) && DistinctSpellings(members)
    requires KeyOf(members).Some? ==> KeyOf(members).value < |members|
    ensures Fresh(KeyOf(members), [], StoredRows(members, rows)) ==> KeysDiffer(KeyOf(members), rows)
    ensures RowsFit(members, rows) && KeysDiffer(KeyOf(members), rows) ==>
      Fresh(KeyOf(members), [], StoredRows(members, rows))
  {
    var stored := StoredRows(members, rows);
    match KeyOf(members)
    case None => FreshWithoutKey([], stored);
    case Some(key) =>
      assert stored[..0] == [] && stored[0..] == stored;
      FreshIsPairwise(key, stored, 0);
      forall i: nat, j: nat | i < j < |rows|
        ensures rows[i][key] == rows[j][key] ==> Clash(key, stored, i, j)
        ensures RowsFit(members, rows) && Clash(key, stored, i, j) ==> rows[i][key] == rows[j][key]
      {
        ClashOfKeys(members, rows, key, i, j);
      }
  }

  lemma {:induction false} FreshWithoutKey(rows: seq<seq<Cell>>, incoming: seq<seq<Cell>>)
    ensures Fresh(None, rows, incoming)
    decreases |incoming|
  {
    if incoming != [] {
      FreshWithoutKey(rows + [incoming[0]], incoming[1..]);
    }
  }

  /**
   The loaded table gives the exported rows back, all of them and in order, exactly when every string has at most
   2047 characters, every enumeration value is listed, and no two rows agree on the primary key.
   */
  lemma {:induction false} TableRebuilt(members: seq<Member>, rows: seq<Row>)
    requires RowsHaveType(rows, members) && Spelled(members) && DistinctSpellings(members)
    ensures KeyOf(members).Some? ==> KeyOf(members).value < |members|
    ensures RowsValue(members, LoadedRows(members, rows)) == Some(rows)
       <==> RowsFit(members, rows) && KeysDiffer(KeyOf(members), rows)
  {
    KeyIsMember(members);
    FreshKeys(members, rows);
    InsertKeepsAll(KeyOf(members), [], StoredRows(members, rows));
    assert [] + StoredRows(members, rows) == StoredRows(members, rows);
    StoredRowsBack(members, rows);
    RowsValueLength(members, LoadedRows(members, rows));
  }

  lemma {:induction false} OneValue(m: Member, v: Value)
    requires HasType(v, m.ty) && NamesAreNames(m.ty) && (m.ty.Enumeration? ==> DistinctNames(m.ty.enumerators))
    ensures RowsHaveType([[v]], [m])
    ensures RowsValue([m], LoadedRows([m], [[v]])) == Some([[v]]) ==> Fits(m.ty, v)
  {
    TableRebuilt([m], [[v]]);
    if RowsFit([m], [[v]]) {
      assert RowFits([m], [[v]][0]);
    }
  }

  /** A string of 2048 characters does not come back. */
  lemma {:induction false} LongStringIsCut(name: string, s: string)
    requires |s| == 2048
    ensures var members, rows := [Member(name, Characters, NotKey, "")], [[Chars(s)]];
      RowsHaveType(rows, members) && RowsValue(members, LoadedRows(members, rows)) != Some(rows)
  {
    OneValue(Member(name, Characters, NotKey, ""), Chars(s));
  }

  /** A code that has no spelling does not come back. */
  lemma {:induction false} UnlistedCodeIsLost(name: string)
    ensures var members, rows := [Member(name, Enumeration([Enumerator(0, "A")]), NotKey, "")], [[Code(1)]];
      RowsHaveType(rows, members) && RowsValue(members, LoadedRows(members, rows)) != Some(rows)
  {
    OneValue(Member(name, Enumeration([Enumerator(0, "A")]), NotKey, ""), Code(1));
  }

  lemma {:induction false} OnlyKey(m: Member)
    requires Keyed(m) && m.key.PrimaryKey?
    ensures KeyOf([m]) == Some(0)
  {
    var members := [m];
    assert members[1..] == [] && PrimariesOf(members) == [m.name] + PrimariesOf([]);
    assert DefsOf(members) == [DefOf(m)] + DefsOf([]) && ColumnName(m) == m.name;
    assert IndexOf(DefsOf(members), m.name) == 0;
  }

  /** Of two rows with one key only the first comes back. */
  lemma {:induction false} SecondKeyIsSkipped(name: string, n: int)
    requires InRange(UInt32, n)
    ensures var members, rows := [Member(name, UInt32, PrimaryKey, "")], [[Number(n)], [Number(n)]];
      RowsHaveType(rows, members) && LoadedRows(members, rows) == [[IntegerCell(n)]]
  {
    var members, rows := [Member(name, UInt32, PrimaryKey, "")], [[Number(n)], [Number(n)]];
    OnlyKey(members[0]);
    assert StoredRows(members, rows) == [[IntegerCell(n)], [IntegerCell(n)]] by {
      assert StoredRow(members, [Number(n)]) == [IntegerCell(n)];
      assert rows[1..] == [[Number(n)]];
    }
    KeySeenTwice([IntegerCell(n)]);
  }

  lemma {:induction false} KeySeenTwice(row: seq<Cell>)
    requires |row| == 1
    ensures Insert(Some(0), [], [row, row]) == [row]
  {
    assert [row, row][1..] == [row] && [] + [row] == [row];
    assert !HasKey(0, [], row) && SameKey(0, row, row) && HasKey(0, [row], row);
    assert [row][1..] == [];
    assert Insert(Some(0), [row], [row]) == Insert(Some(0), [row], []) == [row];
  }
}
