/**
 The schema writer: drpdb/src/SQL.cpp and drpdb/src/SQLSchemaWriter.h. One pass over the member list grows the
 column list, the key list, the load list and the SET clause together.
 */
module Schema {
  import opened StringUtils
  import opened Reflection
  import opened SqlLiterals

  /** `operator<<(cell<Sym::address_info>)` forwards to the cell of its one field, which is never a key. */
  function Flattened(m: Member): (f: Member)
    ensures !f.ty.Address? && f.name == ColumnName(m) && f.desc == m.desc
  {
    if m.ty.Address? then Member(ColumnName(m), UInt32, NotKey, m.desc) else m
  }

  function TypeText(ty: MemberType): string {
    match ty
    case Int32 => " INT NOT NULL"
    case UInt32 => " INT UNSIGNED NOT NULL"
    case Long => " BIGINT NOT NULL"
    case ULong => " INT UNSIGNED NOT NULL"
    case LongLong => " BIGINT NOT NULL"
    case ULongLong => " BIGINT UNSIGNED NOT NULL"
    case UChar => " INT(3) UNSIGNED NOT NULL"
    case Characters => " VARCHAR(2047) NOT NULL"
    case _ => ""
  }

  function CommentText(desc: string): string {
    " COMMENT '" + Doubled(desc) + "',"
  }

  function LabelsText(enumerators: seq<Enumerator>): string {
    if enumerators == [] then "" else ("'" + enumerators[0].name + "',") + LabelsText(enumerators[1..])
  }

  function PlainText(m: Member): string {
    " " + m.name + TypeText(m.ty) + CommentText(m.desc)
  }

  function BoolText(m: Member, useBitType: bool): string {
    " " + m.name + (if useBitType then " BIT(1) NOT NULL" else " BOOLEAN") + CommentText(m.desc)
  }

  function EnumerationText(name: string, enumerators: seq<Enumerator>): string {
    var open := " ENUM(" + LabelsText(enumerators);
    " " + name + (open[..|open| - 1] + ")NOT NULL,")
  }

  /** What a member, already flattened, adds to the column list. */
  function ColumnText(m: Member, useBitType: bool): string {
    match m.ty
    case Boolean => BoolText(m, useBitType)
    case Enumeration(enumerators) => EnumerationText(m.name, enumerators)
    case _ => PlainText(m)
  }

  function KeyEntry(kind: KeyKind, name: string): string {
    if kind.NotKey? then "" else (if kind.PrimaryKey? then "PRIMARY " else "") + "KEY (" + name + "),"
  }

  /** What it adds to the key list; a `bool` never becomes a key. */
  function KeyText(m: Member): string {
    if m.ty.Boolean? then "" else KeyEntry(m.key, m.name)
  }

  /** What it adds to the load list: a column, or the variable that stands in for one. */
  function LoadText(m: Member, useBitType: bool): string {
    if !useBitType then "" else (if m.ty.Boolean? then "@tmp_" else "") + m.name + ","
  }

  function AssignmentText(name: string): string {
    name + "= CAST(@tmp_" + name + " AS UNSIGNED)"
  }

  /** The SET clause grows by one assignment per `bool`. */
  function SetClause(clause: string, m: Member, useBitType: bool): string {
    if !useBitType || !m.ty.Boolean? then clause
    else (if clause == "" then "SET " else clause + ", ") + AssignmentText(m.name)
  }

  function ColumnsText(members: seq<Member>, useBitType: bool): string {
    if members == [] then "" else ColumnText(Flattened(members[0]), useBitType) + ColumnsText(members[1..], useBitType)
  }

  function KeysText(members: seq<Member>): string {
    if members == [] then "" else KeyText(Flattened(members[0])) + KeysText(members[1..])
  }

  function LoadsText(members: seq<Member>, useBitType: bool): string {
    if members == [] then "" else LoadText(Flattened(members[0]), useBitType) + LoadsText(members[1..], useBitType)
  }

  function SetClauses(clause: string, members: seq<Member>, useBitType: bool): string
    decreases |members|
  {
    if members == [] then clause
    else SetClauses(SetClause(clause, Flattened(members[0]), useBitType), members[1..], useBitType)
  }

  lemma {:induction false} KeyGrows(start: string, kind: KeyKind, name: string)
    ensures kind == NotKey ==> start + KeyEntry(kind, name) == start
    ensures kind == PrimaryKey ==> start + KeyEntry(kind, name) == start + "PRIMARY " + "KEY (" + name + "),"
    ensures kind == Key ==> start + KeyEntry(kind, name) == start + "KEY (" + name + "),"
  {
    if kind == PrimaryKey {
      ReassociateTail(start, "PRIMARY ", "KEY (", name, "),");
    } else if kind == Key {
      ReassociateTail(start, "", "KEY (", name, "),");
      assert start + "" == start;
    }
  }

  lemma {:induction false} LoadGrows(start: string, name: string)
    ensures start + ("" + name + ",") == start + name + ","
  {
    Reassociate(start, name, ",");
    assert "" + name == name;
  }

  lemma {:induction false} BoolGrows(start: string, m: Member, useBitType: bool)
    ensures start + BoolText(m, useBitType)
         == start + " " + m.name + (if useBitType then " BIT(1) NOT NULL" else " BOOLEAN") + CommentText(m.desc)
  {
    var kind := if useBitType then " BIT(1) NOT NULL" else " BOOLEAN";
    Reassociate(start, " " + m.name + kind, CommentText(m.desc));
    Reassociate(start, " " + m.name, kind);
    Reassociate(start, " ", m.name);
  }

  lemma {:induction false} FlagGrows(start: string, m: Member)
    requires m.ty.Boolean?
    ensures start + LoadText(m, true) == start + "@tmp_" + m.name + "," && start + LoadText(m, false) == start
  {
    Reassociate(start, "@tmp_" + m.name, ",");
    Reassociate(start, "@tmp_", m.name);
  }

  class SchemaWriter {
    var result: string
    var keys: string
    var loadClause: string
    var setClause: string
    const useBitType: bool

    constructor (useBitType: bool)
      ensures this.useBitType == useBitType
      ensures result == "" && keys == "" && setClause == ""
      ensures loadClause == if useBitType then " (" else ""
    {
      this.useBitType := useBitType;
      result, keys, setClause := "", "", "";
      loadClause := if useBitType then " (" else "";
    }

    method ColumnDesc(kind: KeyKind, name: string)
      modifies this
      ensures keys == old(keys) + KeyEntry(kind, name)
      ensures result == old(result) + (" " + name)
      ensures loadClause == old(loadClause) + if useBitType then "" + name + "," else ""
      ensures setClause == old(setClause)
    {
      if kind == PrimaryKey {
        keys := keys + "PRIMARY ";
      }
      if kind != NotKey {
        keys := keys + "KEY (";
        keys := keys + name;
        keys := keys + "),";
      }
      KeyGrows(old(keys), kind, name);
      Reassociate(result, " ", name);
      result := result + " ";
      result := result + name;
      if useBitType {
        LoadGrows(loadClause, name);
        loadClause := loadClause + name;
        loadClause := loadClause + ",";
      }
    }

    method ColumnComment(comment: string)
      modifies `result
      ensures result == old(result) + CommentText(comment)
    {
      result := result + " COMMENT '";
      var temp := comment;
      temp := Replace(temp, "'", "''");
      result := result + temp;
      result := result + "',";
    }

    /** `operator<<(cell<T>)` for the numbers and for strings. */
    method WritePlain(m: Member)
      requires !m.ty.Boolean? && !m.ty.Enumeration?
      modifies this
      ensures result == old(result) + PlainText(m)
      ensures keys == old(keys) + KeyEntry(m.key, m.name)
      ensures loadClause == old(loadClause) + LoadText(m, useBitType)
      ensures setClause == old(setClause)
    {
      Reassociate(result, " " + m.name, TypeText(m.ty));
      Reassociate(result, " " + m.name + TypeText(m.ty), CommentText(m.desc));
      ColumnDesc(m.key, m.name);
      result := result + TypeText(m.ty);
      ColumnComment(m.desc);
    }

    /** The operator that `BEGIN_ENUMERATION`, `ENUMERATOR` and `END_ENUMERATION` expand to. */
    method WriteEnumeration(m: Member)
      requires m.ty.Enumeration?
      modifies this
      ensures result == old(result) + EnumerationText(m.name, m.ty.enumerators)
      ensures keys == old(keys) + KeyEntry(m.key, m.name)
      ensures loadClause == old(loadClause) + LoadText(m, useBitType)
      ensures setClause == old(setClause)
    {
      ColumnDesc(m.key, m.name);
      WriteLabels(m.ty.enumerators);
    }

    method WriteLabels(enumerators: seq<Enumerator>)
      modifies `result
      ensures var open := " ENUM(" + LabelsText(enumerators);
        result == old(result) + (open[..|open| - 1] + ")NOT NULL,")
    {
      ghost var start := result;
      ghost var open := " ENUM(" + LabelsText(enumerators);
      result := result + " ENUM(";
      assert enumerators[0..] == enumerators;
      Reassociate(start, " ENUM(", LabelsText(enumerators));
      for i := 0 to |enumerators|
        invariant |result| > 0
        invariant result + LabelsText(enumerators[i..]) == start + open
      {
        assert enumerators[i..][1..] == enumerators[i + 1..];
        Reassociate(result, "'" + enumerators[i].name + "',", LabelsText(enumerators[i + 1..]));
        result := result + ("'" + enumerators[i].name + "',");
      }
      assert result == start + open;
      result := result[..|result| - 1];
      assert result == start + open[..|open| - 1];
      result := result + ")NOT NULL,";
      Reassociate(start, open[..|open| - 1], ")NOT NULL,");
    }

    method WriteBool(m: Member)
      requires m.ty.Boolean?
      modifies this
      ensures result == old(result) + BoolText(m, useBitType)
      ensures keys == old(keys)
      ensures loadClause == old(loadClause) + LoadText(m, useBitType)
      ensures setClause == SetClause(old(setClause), m, useBitType)
    {
      BoolGrows(result, m, useBitType);
      FlagGrows(loadClause, m);
      result := result + " ";
      result := result + m.name;
      if useBitType {
        result := result + " BIT(1) NOT NULL";
        ColumnComment(m.desc);
        loadClause := loadClause + "@tmp_";
        loadClause := loadClause + m.name;
        loadClause := loadClause + ",";
        AppendAssignment(m.name);
      } else {
        result := result + " BOOLEAN";
        ColumnComment(m.desc);
      }
    }

    method AppendAssignment(name: string)
      modifies `setClause
      ensures setClause == (if old(setClause) == "" then "SET " else old(setClause) + ", ") + AssignmentText(name)
    {
      if |setClause| == 0 {
        setClause := "SET ";
      } else {
        setClause := setClause + ", ";
      }
      setClause := setClause + name;
      setClause := setClause + "= CAST(@tmp_";
      setClause := setClause + name;
      setClause := setClause + " AS UNSIGNED)";
    }

    method WriteCell(m: Member)
      modifies this
      ensures result == old(result) + ColumnText(Flattened(m), useBitType)
      ensures keys == old(keys) + KeyText(Flattened(m))
      ensures loadClause == old(loadClause) + LoadText(Flattened(m), useBitType)
      ensures setClause == SetClause(old(setClause), Flattened(m), useBitType)
    {
      match m.ty {
        case Address =>
          var name := m.name;
          name := name + "_";
          var temp := name;
          WritePlain(Member(temp + "rv", UInt32, NotKey, m.desc));
        case Boolean => WriteBool(m);
        case Enumeration(_) => WriteEnumeration(m);
        case _ => WritePlain(m);
      }
    }

    /** The operator that `BEGIN_STRUCT`, `MEMBER`, `UNIQUE_MEMBER` and `END_STRUCT` expand to. */
    method WriteStruct(members: seq<Member>)
      modifies this
      ensures result == old(result) + ColumnsText(members, useBitType)
      ensures keys == old(keys) + KeysText(members)
      ensures loadClause == old(loadClause) + LoadsText(members, useBitType)
      ensures setClause == SetClauses(old(setClause), members, useBitType)
    {
      assert members[0..] == members;
      for i := 0 to |members|
        invariant result + ColumnsText(members[i..], useBitType) == old(result) + ColumnsText(members, useBitType)
        invariant keys + KeysText(members[i..]) == old(keys) + KeysText(members)
        invariant loadClause + LoadsText(members[i..], useBitType) == old(loadClause) + LoadsText(members, useBitType)
        invariant SetClauses(setClause, members[i..], useBitType) == SetClauses(old(setClause), members, useBitType)
      {
        assert members[i..][1..] == members[i + 1..];
        ghost var m := Flattened(members[i]);
        Reassociate(result, ColumnText(m, useBitType), ColumnsText(members[i + 1..], useBitType));
        Reassociate(keys, KeyText(m), KeysText(members[i + 1..]));
        Reassociate(loadClause, LoadText(m, useBitType), LoadsText(members[i + 1..], useBitType));
        WriteCell(members[i]);
      }
    }
  }
}
