/** What the row writer writes, the file dialect reads back: field by field, line by line, file by file. */
module CsvRoundTrip {
  import opened StringUtils
  import opened Reflection
  import opened LoadDialect
  import opened CsvWriter
  import Decimal

  /** A separator that no unquoted field and no escape sequence uses. `,` and `;` are such. */
  predicate SafeSeparator(separator: char) {
    !IsWordChar(separator) && separator != '-' && separator != '"' && separator != '\\' && separator != '\n'
  }

  // ----------------------------------------------------------- one field

  /** The datum that the text of a member stands for. */
  function DatumText(ty: MemberType, v: Value, useBitType: bool): string {
    match v
    case Number(n) => Decimal.Printed(n)
    case Chars(s) => s
    case Flag(b) => if useBitType then (if b then "1" else "0") else (if b then "TRUE" else "FALSE")
    case Code(c) => if ty.Enumeration? then EnumeratorName(ty.enumerators, c) else ""
  }

  /** Reading steps over a plain character, and over an escape sequence. */
  lemma {:induction false} ReadPlainChar(c: char, tail: string, separator: char)
    requires c != '\\' && c != '"'
    ensures ReadEnclosed([c] + tail, separator) == Prefixed(c, ReadEnclosed(tail, separator))
  {
    assert ([c] + tail)[1..] == tail;
  }

  lemma {:induction false} ReadEscapeSequence(c: char, tail: string, separator: char)
    ensures ReadEnclosed(['\\', c] + tail, separator) == Prefixed(Meaning(c), ReadEnclosed(tail, separator))
  {
    assert (['\\', c] + tail)[2..] == tail;
  }

  lemma {:induction false} ReadEscapedChar(c: char, tail: string, separator: char)
    requires SafeSeparator(separator)
    ensures ReadEnclosed(EscapedChar(c, separator) + tail, separator) == Prefixed(c, ReadEnclosed(tail, separator))
  {
    if EscapedChar(c, separator) == [c] {
      ReadPlainChar(c, tail, separator);
    } else {
      ReadEscapeSequence(c, tail, separator);
    }
  }

  lemma {:induction false} ReadClosingQuote(rest: string, separator: char)
    requires separator != '"' && AtTerminator(rest, separator)
    ensures ReadEnclosed("\"" + rest, separator) == Some(("", rest))
  {
    assert ("\"" + rest)[1..] == rest;
  }

  lemma {:induction false} ReadEscaped(s: string, separator: char, rest: string)
    requires SafeSeparator(separator) && AtTerminator(rest, separator)
    ensures ReadEnclosed(Escaped(s, separator) + "\"" + rest, separator) == Some((s, rest))
  {
    if s == "" {
      assert "" + "\"" == "\"";
      ReadClosingQuote(rest, separator);
    } else {
      var head, tail := EscapedChar(s[0], separator), Escaped(s[1..], separator);
      ReadEscaped(s[1..], separator, rest);
      ReadEscapedChar(s[0], tail + "\"" + rest, separator);
      Reassociate(head, tail, "\"");
      Reassociate(head, tail + "\"", rest);
      assert s == [s[0]] + s[1..];
    }
  }

  /** Text that needs no escaping is written as it stands. */
  lemma {:induction false} EscapedName(s: string, separator: char)
    requires SafeSeparator(separator)
    requires forall c :: c in s ==> IsWordChar(c)
    ensures Escaped(s, separator) == s
  {
    if s != "" {
      assert s[0] in s && forall c :: c in s[1..] ==> c in s;
      EscapedName(s[1..], separator);
      assert s == [s[0]] + s[1..];
    }
  }

  predicate IsPlain(s: string, separator: char) {
    forall c :: c in s ==> c != separator && c != '\n' && c != '\\' && c != '"'
  }

  lemma {:induction false} ReadPlainBack(s: string, separator: char, rest: string)
    requires IsPlain(s, separator) && AtTerminator(rest, separator)
    ensures ReadPlain(s + rest, separator) == (s, rest)
  {
    if s == "" {
      assert s + rest == rest;
    } else {
      assert s[0] in s && forall c :: c in s[1..] ==> c in s;
      ReadPlainBack(s[1..], separator, rest);
      assert (s + rest)[1..] == s[1..] + rest;
      assert s == [s[0]] + s[1..];
    }
  }

  lemma {:induction false} ReadPlainField(s: string, separator: char, rest: string)
    requires s != "" && s != "NULL" && IsPlain(s, separator) && AtTerminator(rest, separator)
    ensures ReadField(s + rest, separator) == Some((Datum(s), rest))
  {
    ReadPlainBack(s, separator, rest);
    assert (s + rest)[..|s|] == s;
    assert s[0] in s;
  }

  lemma {:induction false} EnumeratorNameIsWord(enumerators: seq<Enumerator>, code: int)
    requires forall e :: e in enumerators ==> IsName(e.name)
    ensures forall c :: c in EnumeratorName(enumerators, code) ==> IsWordChar(c)
  {
    if enumerators != [] {
      assert enumerators[0] in enumerators;
      EnumeratorNameIsWord(enumerators[1..], code);
    }
  }

  lemma {:induction false} ReadQuoted(s: string, separator: char, rest: string)
    requires SafeSeparator(separator) && AtTerminator(rest, separator)
    ensures ReadField("\"" + Escaped(s, separator) + "\"" + rest, separator) == Some((Datum(s), rest))
  {
    var all := "\"" + Escaped(s, separator) + "\"" + rest;
    assert all[1..] == Escaped(s, separator) + "\"" + rest;
    ReadEscaped(s, separator, rest);
  }

  lemma {:induction false} ReadFieldBack(ty: MemberType, v: Value, useBitType: bool, separator: char, rest: string)
    requires SafeSeparator(separator) && AtTerminator(rest, separator)
    requires HasType(v, ty) && NamesAreNames(ty)
    ensures ReadField(FieldText(ty, v, useBitType, separator) + rest, separator)
         == Some((Datum(DatumText(ty, v, useBitType)), rest))
  {
    match v
    case Number(n) =>
      assert Decimal.Printed(n)[0] in Decimal.Printed(n);
      ReadPlainField(Decimal.Printed(n), separator, rest);
    case Chars(s) =>
      ReadQuoted(s, separator, rest);
    case Flag(b) =>
      ReadPlainField(FieldText(ty, v, useBitType, separator), separator, rest);
    case Code(c) =>
      EnumeratorNameIsWord(ty.enumerators, c);
      EscapedName(EnumeratorName(ty.enumerators, c), separator);
      ReadQuoted(EnumeratorName(ty.enumerators, c), separator, rest);
  }

  // ------------------------------------------------------ lines and files

  function Data(members: seq<Member>, row: Row, useBitType: bool): (data: seq<Field>)
    requires |row| == |members|
    ensures |data| == |row|
    decreases |row|
  {
    if row == [] then []
    else [Datum(DatumText(members[0].ty, row[0], useBitType))] + Data(members[1..], row[1..], useBitType)
  }

  lemma {:induction false} DataAt(members: seq<Member>, row: Row, useBitType: bool, i: nat)
    requires i < |row| == |members|
    ensures Data(members, row, useBitType)[i] == Datum(DatumText(members[i].ty, row[i], useBitType))
    decreases |row|
  {
    if i > 0 {
      DataAt(members[1..], row[1..], useBitType, i - 1);
    }
  }

  lemma {:induction false} TailHasType(members: seq<Member>, row: Row)
    requires members != [] && RowHasType(row, members) && Spelled(members)
    ensures RowHasType(row[1..], members[1..]) && Spelled(members[1..])
    ensures HasType(row[0], members[0].ty) && NamesAreNames(members[0].ty)
  {
    assert members[0] in members && forall m :: m in members[1..] ==> m in members;
  }

  /** The line of a single member is its text and the newline. */
  lemma {:induction false} LineOfOne(members: seq<Member>, row: Row, useBitType: bool, separator: char)
    requires |row| == |members| == 1
    ensures LineText(members, row, useBitType, separator)
         == FieldText(members[0].ty, row[0], useBitType, separator) + "\n"
  {
    var head := FieldText(members[0].ty, row[0], useBitType, separator);
    assert MembersText(members, row, useBitType, separator) == head + [separator];
    assert (head + [separator])[..|head|] == head;
  }

  lemma {:induction false} DropLast(a: string, b: string)
    requires b != ""
    ensures (a + b)[..|a + b| - 1] == a + b[..|b| - 1]
  {
  }

  /** A longer line is its first text, a separator, and the line of the other members. */
  lemma {:induction false} LineOfMore(members: seq<Member>, row: Row, useBitType: bool, separator: char)
    requires |row| == |members| > 1
    ensures LineText(members, row, useBitType, separator)
         == FieldText(members[0].ty, row[0], useBitType, separator)
            + ([separator] + LineText(members[1..], row[1..], useBitType, separator))
  {
    var head := FieldText(members[0].ty, row[0], useBitType, separator);
    var tail := MembersText(members[1..], row[1..], useBitType, separator);
    var text := MembersText(members, row, useBitType, separator);
    assert text == head + [separator] + tail;
    DropLast(head + [separator], tail);
    Reassociate(head + [separator], tail[..|tail| - 1], "\n");
    Reassociate(head, [separator], tail[..|tail| - 1] + "\n");
  }

  lemma {:induction false} ReadLineEnds(all: string, separator: char, field: Field, rest: string)
    requires separator != '\n' && ReadField(all, separator) == Some((field, "\n" + rest))
    ensures ReadLine(all, separator) == Some(([field], rest))
  {
    assert ("\n" + rest)[1..] == rest;
  }

  lemma {:induction false} ReadLineGoesOn(
      all: string, separator: char, field: Field, next: string, fields: seq<Field>, rest: string)
    requires ReadField(all, separator) == Some((field, [separator] + next))
    requires ReadLine(next, separator) == Some((fields, rest))
    ensures ReadLine(all, separator) == Some(([field] + fields, rest))
  {
    assert ([separator] + next)[1..] == next;
  }

  lemma {:induction false} FieldOfOne(
      members: seq<Member>, row: Row, useBitType: bool, separator: char, rest: string)
    requires |members| == |row| == 1
    requires HasType(row[0], members[0].ty) && NamesAreNames(members[0].ty) && SafeSeparator(separator)
    ensures ReadField(LineText(members, row, useBitType, separator) + rest, separator)
         == Some((Datum(DatumText(members[0].ty, row[0], useBitType)), "\n" + rest))
  {
    var head := FieldText(members[0].ty, row[0], useBitType, separator);
    var all := LineText(members, row, useBitType, separator) + rest;
    assert all == head + ("\n" + rest) by { LineOfOne(members, row, useBitType, separator); }
    ReadFieldBack(members[0].ty, row[0], useBitType, separator, "\n" + rest);
  }

  lemma {:induction false} FirstFieldOfMore(
      members: seq<Member>, row: Row, useBitType: bool, separator: char, rest: string)
    requires |members| > 1 && |row| == |members|
    requires HasType(row[0], members[0].ty) && NamesAreNames(members[0].ty) && SafeSeparator(separator)
    ensures ReadField(LineText(members, row, useBitType, separator) + rest, separator)
         == Some((Datum(DatumText(members[0].ty, row[0], useBitType)),
                  [separator] + (LineText(members[1..], row[1..], useBitType, separator) + rest)))
  {
    var line := LineText(members[1..], row[1..], useBitType, separator);
    var head := FieldText(members[0].ty, row[0], useBitType, separator);
    assert LineText(members, row, useBitType, separator) == head + ([separator] + line) by {
      LineOfMore(members, row, useBitType, separator);
    }
    Reassociate(head, [separator] + line, rest);
    Reassociate([separator], line, rest);
    ReadFieldBack(members[0].ty, row[0], useBitType, separator, [separator] + (line + rest));
  }

  lemma {:induction false} ReadLineBack(
      members: seq<Member>, row: Row, useBitType: bool, separator: char, rest: string)
    requires members != [] && RowHasType(row, members) && Spelled(members) && SafeSeparator(separator)
    ensures ReadLine(LineText(members, row, useBitType, separator) + rest, separator)
         == Some((Data(members, row, useBitType), rest))
    decreases |members|
  {
    if |members| == 1 {
      TailHasType(members, row);
      FieldOfOne(members, row, useBitType, separator, rest);
      var field := Datum(DatumText(members[0].ty, row[0], useBitType));
      ReadLineEnds(LineText(members, row, useBitType, separator) + rest, separator, field, rest);
      assert Data(members, row, useBitType) == [field];
    } else {
      TailHasType(members, row);
      FirstFieldOfMore(members, row, useBitType, separator, rest);
      ReadLineBack(members[1..], row[1..], useBitType, separator, rest);
      ReadLineGoesOn(LineText(members, row, useBitType, separator) + rest, separator,
                     Datum(DatumText(members[0].ty, row[0], useBitType)),
                     LineText(members[1..], row[1..], useBitType, separator) + rest,
                     Data(members[1..], row[1..], useBitType), rest);
    }
  }

  function DataOfAll(members: seq<Member>, rows: seq<Row>, useBitType: bool): (data: seq<seq<Field>>)
    requires Aligned(rows, members)
    ensures |data| == |rows|
  {
    if rows == [] then []
    else [Data(members, rows[0], useBitType)] + DataOfAll(members, rows[1..], useBitType)
  }

  /** The file reads back as its data, whatever quotes, backslashes, separators and newlines its strings hold. */
  lemma {:induction false} ReadFileBack(members: seq<Member>, rows: seq<Row>, useBitType: bool, separator: char)
    requires members != [] && RowsHaveType(rows, members) && Spelled(members) && SafeSeparator(separator)
    ensures ReadFile(FileText(members, rows, useBitType, separator), separator)
         == Some(DataOfAll(members, rows, useBitType))
  {
    if rows != [] {
      assert rows[0] in rows && forall row :: row in rows[1..] ==> row in rows;
      ReadLineBack(members, rows[0], useBitType, separator, FileText(members, rows[1..], useBitType, separator));
      ReadFileBack(members, rows[1..], useBitType, separator);
    }
  }

  // ------------------------------------------------------- back to values

  /** The value that a datum stands for in a member of this type. */
  function ValueOf(ty: MemberType, field: Field): Option<Value> {
    match field
    case Null => None
    case Datum(text) =>
      match ty
      case Characters => Some(Chars(text))
      case Boolean =>
        if text == "1" || text == "TRUE" then Some(Flag(true))
        else if text == "0" || text == "FALSE" then Some(Flag(false))
        else None
      case Enumeration(enumerators) =>
        (match CodeOf(enumerators, text)
         case None => None
         case Some(code) => Some(Code(code)))
      case _ =>
        (match Decimal.Parse(text)
         case None => None
         case Some(n) => Some(Number(n)))
  }

  lemma {:induction false} NameIsListed(enumerators: seq<Enumerator>, code: int)
    requires Listed(enumerators, code)
    ensures EnumeratorName(enumerators, code) in Names(enumerators)
  {
    var head, tail := enumerators[0], enumerators[1..];
    if head.code == code {
      assert Names(enumerators)[0] == head.name;
    } else {
      var e :| e in enumerators && e.code == code;
      assert e in tail;
      NameIsListed(tail, code);
      var i :| 0 <= i < |Names(tail)| && Names(tail)[i] == EnumeratorName(tail, code);
      assert Names(enumerators)[i + 1] == Names(tail)[i];
    }
  }

  /** An unlisted code has no spelling. */
  lemma {:induction false} NoName(enumerators: seq<Enumerator>, code: int)
    requires !Listed(enumerators, code)
    ensures EnumeratorName(enumerators, code) == ""
  {
    if enumerators != [] {
      assert enumerators[0] in enumerators && forall e :: e in enumerators[1..] ==> e in enumerators;
      NoName(enumerators[1..], code);
    }
  }

  /** A spelling finds its code again exactly when the code is listed; an unlisted code is written as "". */
  lemma {:induction false} CodeOfName(enumerators: seq<Enumerator>, code: int)
    requires DistinctNames(enumerators) && forall e :: e in enumerators ==> IsName(e.name)
    ensures Listed(enumerators, code) <==> CodeOf(enumerators, EnumeratorName(enumerators, code)) == Some(code)
    ensures !Listed(enumerators, code) ==> EnumeratorName(enumerators, code) == ""
    ensures "" !in Names(enumerators) && CodeOf(enumerators, "") == None
  {
    if enumerators != [] {
      var head, tail := enumerators[0], enumerators[1..];
      assert head in enumerators && forall e :: e in tail ==> e in enumerators;
      CodeOfName(tail, code);
      if head.code != code {
        assert Listed(enumerators, code) ==> Listed(tail, code);
        if Listed(tail, code) {
          NameIsListed(tail, code);
          var i :| 0 <= i < |Names(tail)| && Names(tail)[i] == EnumeratorName(tail, code);
          assert enumerators[0].name != enumerators[i + 1].name;
        }
      }
      forall i | 0 <= i < |enumerators| ensures Names(enumerators)[i] != "" {
        assert enumerators[i] in enumerators;
      }
    }
  }

  /** The one thing the text can lose: an enumeration value that the `switch` does not list. */
  predicate Writable(ty: MemberType, v: Value) {
    ty.Enumeration? && v.Code? ==> Listed(ty.enumerators, v.c)
  }

  predicate RowWritable(members: seq<Member>, row: Row)
    requires |row| == |members|
    decreases |row|
  {
    row == [] || (Writable(members[0].ty, row[0]) && RowWritable(members[1..], row[1..]))
  }

  predicate RowsWritable(members: seq<Member>, rows: seq<Row>)
    requires Aligned(rows, members)
  {
    rows == [] || (RowWritable(members, rows[0]) && RowsWritable(members, rows[1..]))
  }

  lemma {:induction false} ValueBack(ty: MemberType, v: Value, useBitType: bool)
    requires HasType(v, ty) && NamesAreNames(ty) && (ty.Enumeration? ==> DistinctNames(ty.enumerators))
    ensures ValueOf(ty, Datum(DatumText(ty, v, useBitType))) == Some(v) <==> Writable(ty, v)
  {
    match v
    case Number(n) => Decimal.ParsePrinted(n);
    case Chars(s) =>
    case Flag(b) =>
    case Code(c) => CodeOfName(ty.enumerators, c);
  }

  /** A flag is written as a digit or as a word, as the setting says, and the text is that of no other flag. */
  lemma {:induction false} FlagIsWordOrDigit(b: bool, useBitType: bool, separator: char)
    ensures var text := FieldText(Boolean, Flag(b), useBitType, separator);
      && (Decimal.Parse(text).Some? <==> useBitType)
      && ValueOf(Boolean, Datum(text)) == Some(Flag(b))
  {
    assert "1"[..0] == "" && "TRUE"[|"TRUE"| - 1] == 'E' && "FALSE"[|"FALSE"| - 1] == 'E';
  }

  function RowOf(members: seq<Member>, fields: seq<Field>): Option<Row>
    decreases |members|
  {
    if members == [] && fields == [] then Some([])
    else if members == [] || fields == [] then None
    else
      var v, tail := ValueOf(members[0].ty, fields[0]), RowOf(members[1..], fields[1..]);
      if v == None || tail == None then None else Some([v.value] + tail.value)
  }

  function RowsOf(members: seq<Member>, lines: seq<seq<Field>>): Option<seq<Row>> {
    if lines == [] then Some([])
    else
      var row, tail := RowOf(members, lines[0]), RowsOf(members, lines[1..]);
      if row == None || tail == None then None else Some([row.value] + tail.value)
  }

  lemma {:induction false} RowOfStep(members: seq<Member>, fields: seq<Field>, row: Row)
    requires members != [] && fields != [] && row != []
    ensures RowOf(members, fields) == Some(row)
       <==> ValueOf(members[0].ty, fields[0]) == Some(row[0]) && RowOf(members[1..], fields[1..]) == Some(row[1..])
  {
    assert row == [row[0]] + row[1..];
  }

  lemma {:induction false} RowBack(members: seq<Member>, row: Row, useBitType: bool)
    requires RowHasType(row, members) && Spelled(members) && DistinctSpellings(members)
    ensures RowOf(members, Data(members, row, useBitType)) == Some(row) <==> RowWritable(members, row)
    decreases |members|
  {
    if members != [] {
      TailHasType(members, row);
      assert members[0] in members && forall m :: m in members[1..] ==> m in members;
      ValueBack(members[0].ty, row[0], useBitType);
      RowBack(members[1..], row[1..], useBitType);
      RowOfStep(members, Data(members, row, useBitType), row);
    }
  }

  lemma {:induction false} RowsBack(members: seq<Member>, rows: seq<Row>, useBitType: bool)
    requires RowsHaveType(rows, members) && Spelled(members) && DistinctSpellings(members)
    ensures RowsOf(members, DataOfAll(members, rows, useBitType)) == Some(rows)
       <==> RowsWritable(members, rows)
  {
    if rows != [] {
      assert rows[0] in rows && forall row :: row in rows[1..] ==> row in rows;
      RowBack(members, rows[0], useBitType);
      RowsBack(members, rows[1..], useBitType);
      assert rows == [rows[0]] + rows[1..];
    }
  }

  /**
   Reading the file and interpreting its fields gives the rows back exactly when every enumeration value is
   listed; numbers, flags and strings never stand in the way.
   */
  lemma {:induction false} FileRoundTrip(members: seq<Member>, rows: seq<Row>, useBitType: bool, separator: char)
    requires members != [] && RowsHaveType(rows, members) && SafeSeparator(separator)
    requires Spelled(members) && DistinctSpellings(members)
    ensures
      var read := ReadFile(FileText(members, rows, useBitType, separator), separator);
      read.Some? &&
      (RowsOf(members, read.value) == Some(rows) <==> RowsWritable(members, rows))
  {
    ReadFileBack(members, rows, useBitType, separator);
    RowsBack(members, rows, useBitType);
  }

  /** So no two tables share a file text. */
  lemma {:induction false} FileTextIsInjective(
      members: seq<Member>, rows: seq<Row>, others: seq<Row>, useBitType: bool, separator: char)
    requires members != [] && RowsHaveType(rows, members) && RowsHaveType(others, members)
    requires SafeSeparator(separator) && Spelled(members) && DistinctSpellings(members)
    requires RowsWritable(members, rows) && RowsWritable(members, others)
    requires FileText(members, rows, useBitType, separator) == FileText(members, others, useBitType, separator)
    ensures rows == others
  {
    FileRoundTrip(members, rows, useBitType, separator);
    FileRoundTrip(members, others, useBitType, separator);
  }
}
