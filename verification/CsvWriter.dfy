/** The row writer: drpdb/src/CSVWriter.h and the operators of drpdb/src/CSVOutput.cpp. */
module CsvWriter {
  import opened StringUtils
  import opened Reflection
  import Decimal

  /** The text of one member, without the separator that follows it. */
  function FieldText(ty: MemberType, v: Value, useBitType: bool, separator: char): string {
    match v
    case Number(n) => Decimal.Printed(n)
    case Chars(s) => "\"" + Escaped(s, separator) + "\""
    case Flag(b) => if useBitType then (if b then "1" else "0") else (if b then "TRUE" else "FALSE")
    case Code(c) => "\"" + (if ty.Enumeration? then EnumeratorName(ty.enumerators, c) else "") + "\""
  }

  /** Every member in order, each followed by a separator. */
  function MembersText(members: seq<Member>, row: Row, useBitType: bool, separator: char): (text: string)
    requires |row| == |members|
    ensures members != [] ==> text != ""
    decreases |members|
  {
    if members == [] then ""
    else
      FieldText(members[0].ty, row[0], useBitType, separator) + [separator]
      + MembersText(members[1..], row[1..], useBitType, separator)
  }

  /** One line of the file: the last separator is taken back and a newline ends it. */
  function LineText(members: seq<Member>, row: Row, useBitType: bool, separator: char): string
    requires |row| == |members| && members != []
  {
    var text := MembersText(members, row, useBitType, separator);
    text[..|text| - 1] + "\n"
  }

  predicate Aligned(rows: seq<Row>, members: seq<Member>) {
    forall row :: row in rows ==> |row| == |members|
  }

  function FileText(members: seq<Member>, rows: seq<Row>, useBitType: bool, separator: char): string
    requires Aligned(rows, members) && members != []
  {
    if rows == [] then ""
    else LineText(members, rows[0], useBitType, separator) + FileText(members, rows[1..], useBitType, separator)
  }

  /** The lines of the rows from i on. */
  function LinesFrom(members: seq<Member>, rows: seq<Row>, i: nat, useBitType: bool, separator: char): string
    requires i <= |rows| && Aligned(rows, members) && members != []
    decreases |rows| - i
  {
    if i == |rows| then ""
    else LineText(members, rows[i], useBitType, separator) + LinesFrom(members, rows, i + 1, useBitType, separator)
  }

  lemma {:induction false} FileIsLinesFrom(
      members: seq<Member>, rows: seq<Row>, i: nat, useBitType: bool, separator: char)
    requires i <= |rows| && Aligned(rows, members) && members != []
    ensures Aligned(rows[i..], members)
    ensures FileText(members, rows[i..], useBitType, separator) == LinesFrom(members, rows, i, useBitType, separator)
    decreases |rows| - i
  {
    if i < |rows| {
      FileIsLinesFrom(members, rows, i + 1, useBitType, separator);
      assert rows[i..][1..] == rows[i + 1..];
    }
  }

  class Writer {
    var out: string
    const useBitType: bool
    const separator: char

    constructor (useBitType: bool, separator: char)
      ensures out == "" && this.useBitType == useBitType && this.separator == separator
    {
      this.out := "";
      this.useBitType := useBitType;
      this.separator := separator;
    }

    method Backup()
      requires out != ""
      modifies this
      ensures out == old(out)[..|old(out)| - 1]
    {
      out := out[..|out| - 1];
    }

    method WriteNumber(n: int)
      modifies this
      ensures out == old(out) + Decimal.Printed(n) + [separator]
    {
      out := out + Decimal.Printed(n);
      out := out + [separator];
    }

    method WriteString(s: string)
      modifies this
      ensures out == old(out) + ("\"" + Escaped(s, separator) + "\"") + [separator]
    {
      out := out + "\"";
      var copy := new Text(s);
      Escape(copy, separator);
      out := out + copy.str;
      out := out + "\"";
      out := out + [separator];
    }

    method WriteBool(b: bool)
      modifies this
      ensures out == old(out) + FieldText(Boolean, Flag(b), useBitType, separator) + [separator]
    {
      if useBitType {
        out := out + (if b then "1" else "0");
      } else {
        out := out + (if b then "TRUE" else "FALSE");
      }
      out := out + [separator];
    }

    method WriteEnum(enumerators: seq<Enumerator>, code: int)
      modifies this
      ensures out == old(out) + ("\"" + EnumeratorName(enumerators, code) + "\"") + [separator]
    {
      out := out + "\"";
      out := out + EnumeratorName(enumerators, code);
      out := out + "\"";
      out := out + [separator];
    }

    /** `*this << V.name`, with the overload that the member's type selects. */
    method WriteMember(ty: MemberType, v: Value)
      requires HasType(v, ty)
      modifies this
      ensures out == old(out) + (FieldText(ty, v, useBitType, separator) + [separator])
    {
      match v
      case Number(n) => WriteNumber(n);
      case Chars(s) => WriteString(s);
      case Flag(b) => WriteBool(b);
      case Code(c) => WriteEnum(ty.enumerators, c);
    }

    /** The operator that `BEGIN_STRUCT`, `MEMBER` and `END_STRUCT` expand to. */
    method WriteStruct(members: seq<Member>, row: Row)
      requires RowHasType(row, members)
      modifies this
      ensures out == old(out) + MembersText(members, row, useBitType, separator)
    {
      ghost var goal := out + MembersText(members, row, useBitType, separator);
      assert members[0..] == members && row[0..] == row;
      for i := 0 to |members|
        invariant out + MembersText(members[i..], row[i..], useBitType, separator) == goal
      {
        ghost var head := FieldText(members[i].ty, row[i], useBitType, separator) + [separator];
        assert members[i..][1..] == members[i + 1..] && row[i..][1..] == row[i + 1..];
        Reassociate(out, head, MembersText(members[i + 1..], row[i + 1..], useBitType, separator));
        WriteMember(members[i].ty, row[i]);
      }
    }

    /** The loop of `PopulateTable`. */
    method PopulateTable(members: seq<Member>, rows: seq<Row>)
      requires members != [] && RowsHaveType(rows, members)
      modifies this
      ensures out == old(out) + FileText(members, rows, useBitType, separator)
    {
      ghost var goal := out + LinesFrom(members, rows, 0, useBitType, separator);
      assert goal == out + FileText(members, rows, useBitType, separator) by {
        FileIsLinesFrom(members, rows, 0, useBitType, separator);
        assert rows[0..] == rows;
      }
      var i := 0;
      while i != |rows|
        invariant i <= |rows|
        invariant out + LinesFrom(members, rows, i, useBitType, separator) == goal
      {
        Reassociate(out, LineText(members, rows[i], useBitType, separator),
                    LinesFrom(members, rows, i + 1, useBitType, separator));
        WriteLine(members, rows[i]);
        i := i + 1;
      }
    }

    /** The body of that loop. */
    method WriteLine(members: seq<Member>, row: Row)
      requires members != [] && RowHasType(row, members)
      modifies this
      ensures out == old(out) + LineText(members, row, useBitType, separator)
    {
      WriteStruct(members, row);
      Backup();
      out := out + "\n";
    }
  }
}
