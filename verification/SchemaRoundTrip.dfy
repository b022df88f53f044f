/** What a server parses from the generated statements: columns, keys, load list and SET clause of the member list. */
module SchemaRoundTrip {
  import opened StringUtils
  import opened Reflection
  import opened SqlLiterals
  import opened SqlText
  import opened SqlParser
  import opened SchemaPieces
  import Decimal

  // ------------------------------------------------------- intended result

  /** The column type that a member type asks for. */
  function ColumnTypeOf(ty: MemberType): ColumnType {
    match ty
    case Int32 => IntegerColumn(32, false)
    case UInt32 => IntegerColumn(32, true)
    case Long => IntegerColumn(64, false)
    case ULong => IntegerColumn(32, true)
    case LongLong => IntegerColumn(64, false)
    case ULongLong => IntegerColumn(64, true)
    case UChar => IntegerColumn(32, true)
    case Characters => VarcharColumn(2047)
    case Boolean => BitColumn(1)
    case Address => IntegerColumn(32, true)
    case Enumeration(enumerators) => EnumColumn(Names(enumerators))
  }

  /** An ENUM column is the only one whose description is not written. */
  function ColumnOf(m: Member): Item {
    ColumnItem(ColumnName(m), ColumnTypeOf(m.ty), if m.ty.Enumeration? then None else Some(CommentOf(m.desc)))
  }

  function ColumnsOf(members: seq<Member>): (items: seq<Item>)
    ensures |items| == |members|
  {
    if members == [] then [] else [ColumnOf(members[0])] + ColumnsOf(members[1..])
  }

  /** A member becomes a key unless it is a `bool` or an `address_info`. */
  predicate Keyed(m: Member) {
    !m.key.NotKey? && !m.ty.Boolean? && !m.ty.Address?
  }

  function KeysOf(members: seq<Member>): seq<Item> {
    if members == [] then []
    else
      (if Keyed(members[0]) then [KeyItem(members[0].key.PrimaryKey?, members[0].name)] else [])
      + KeysOf(members[1..])
  }

  function TargetOf(m: Member): Target {
    if m.ty.Boolean? then Variable("tmp_" + m.name) else Column(ColumnName(m))
  }

  function TargetsOf(members: seq<Member>): (targets: seq<Target>)
    ensures |targets| == |members|
  {
    if members == [] then [] else [TargetOf(members[0])] + TargetsOf(members[1..])
  }

  /** One assignment for each `bool`. */
  function AssignmentsOf(members: seq<Member>): seq<Assignment> {
    if members == [] then []
    else (if members[0].ty.Boolean? then [Assignment(members[0].name, "tmp_" + members[0].name)] else [])
         + AssignmentsOf(members[1..])
  }

  // ------------------------------------------------------------ one column

  lemma {:induction false} TypeWords()
    ensures Keywords(["NOT", "NULL"]) == [Word("NOT"), Word("NULL")]
    ensures Keywords(["UNSIGNED", "NOT", "NULL"]) == [Word("UNSIGNED"), Word("NOT"), Word("NULL")]
  {
    assert ["NOT", "NULL"][1..] == ["NULL"] && ["NULL"][1..] == [];
    assert Keywords(["NULL"]) == [Word("NULL")];
    assert ["UNSIGNED", "NOT", "NULL"][1..] == ["NOT", "NULL"];
  }

  lemma {:induction false} WidthOfVarchar()
    ensures Decimal.ParseNatural("2047") == Some(2047)
  {
    assert "2047"[..3] == "204" && "204"[..2] == "20" && "20"[..1] == "2";
    assert Decimal.ParseNatural("2") == Some(2);
    assert Decimal.ParseNatural("20") == Some(20);
    assert Decimal.ParseNatural("204") == Some(204);
  }

  /** A type is read from its name, its width and its signedness. */
  lemma {:induction false} ParseSpec(base: string, width: string, unsigned: bool, ty: ColumnType, rest: seq<Token>)
    requires base != "ENUM" && TypeNamed(base, width, unsigned) == Some(ty)
    ensures ParseType(
      [Word(base)] + (WidthTokens(width)
        + ((if unsigned then [Word("UNSIGNED")] else []) + ([Word("NOT"), Word("NULL")] + rest))))
      == Some((ty, [Word("NOT"), Word("NULL")] + rest))
  {
    var tail := [Word("NOT"), Word("NULL")] + rest;
    var signed := (if unsigned then [Word("UNSIGNED")] else []) + tail;
    assert ParseUnsigned(signed) == (unsigned, tail) by {
      if unsigned { assert signed[1..] == tail; } else { assert signed == tail; }
    }
    var wide := WidthTokens(width) + signed;
    assert ParseWidth(wide) == (width, signed) by {
      if width == "" { assert wide == signed; } else { assert wide[3..] == signed; }
    }
    assert ([Word(base)] + wide)[1..] == wide;
  }

  lemma {:induction false} TokensReassociate<T>(a: seq<T>, b: seq<T>, c: seq<T>, d: seq<T>)
    ensures (a + (b + c)) + d == a + (b + (c + d))
  {
  }

  lemma {:induction false} TypeIsNamed(ty: MemberType)
    requires !ty.Enumeration?
    ensures var spec := SpecOf(ty);
      TypeNamed(spec.base, spec.width, |spec.words| == 3) == Some(ColumnTypeOf(ty))
  {
    WidthOfVarchar();
    assert Decimal.ParseNatural("1") == Some(1);
  }

  lemma {:induction false} WordsOfSpec(ty: MemberType)
    ensures var spec := SpecOf(ty);
      Keywords(spec.words) == (if |spec.words| == 3 then [Word("UNSIGNED")] else []) + [Word("NOT"), Word("NULL")]
  {
    TypeWords();
  }

  lemma {:induction false} SpecTokensSplit(ty: MemberType, rest: seq<Token>)
    ensures var spec := SpecOf(ty);
      SpecTokens(spec) + rest
      == [Word(spec.base)]
         + (WidthTokens(spec.width)
            + ((if |spec.words| == 3 then [Word("UNSIGNED")] else []) + ([Word("NOT"), Word("NULL")] + rest)))
  {
    var spec := SpecOf(ty);
    var sign, tail := if |spec.words| == 3 then [Word("UNSIGNED")] else [], [Word("NOT"), Word("NULL")];
    WordsOfSpec(ty);
    TokensReassociate([Word(spec.base)], WidthTokens(spec.width), sign + tail, rest);
    Reassociate(sign, tail, rest);
  }

  /** The same for a member type, on the tokens of its generated text. */
  lemma {:induction false} ParseMemberType(ty: MemberType, rest: seq<Token>)
    requires !ty.Enumeration?
    ensures ParseType(SpecTokens(SpecOf(ty)) + rest) == Some((ColumnTypeOf(ty), [Word("NOT"), Word("NULL")] + rest))
  {
    var spec := SpecOf(ty);
    TypeIsNamed(ty);
    ParseSpec(spec.base, spec.width, |spec.words| == 3, ColumnTypeOf(ty), rest);
    SpecTokensSplit(ty, rest);
  }

  /** A list item ends here. */
  predicate AtItemEnd(ts: seq<Token>) {
    ts != [] && (ts[0] == Sign(',') || ts[0] == Sign(')'))
  }

  lemma {:induction false} ParsePlainColumn(m: Member, rest: seq<Token>)
    requires Presentable(m) && !m.ty.Enumeration? && !m.ty.Address? && AtItemEnd(rest)
    ensures ParseColumn(ColumnTokens(m) + rest) == Some((ColumnOf(m), rest))
  {
    var comment := [Word("COMMENT"), Quoted(CommentOf(m.desc))] + rest;
    var afterName := SpecTokens(SpecOf(m.ty)) + comment;
    assert ColumnTokens(m) + rest == [Word(m.name)] + afterName;
    assert ([Word(m.name)] + afterName)[1..] == afterName;
    ParseMemberType(m.ty, comment);
    TypeWords();
    assert ([Word("NOT"), Word("NULL")] + comment)[2..] == comment;
    assert comment[2..] == rest;
  }

  lemma {:induction false} ParseLabelsEnds(first: string, rest: seq<Token>)
    requires rest != [] && rest[0] == Sign(')')
    ensures ParseLabels([Quoted(first)] + rest) == Some(([first], rest))
  {
    assert ([Quoted(first)] + rest)[1..] == rest;
  }

  lemma {:induction false} ParseLabelsGoesOn(first: string, tail: seq<Token>, labels: seq<string>, rest: seq<Token>)
    requires ParseLabels(tail) == Some((labels, rest))
    ensures ParseLabels([Quoted(first)] + ([Sign(',')] + tail)) == Some(([first] + labels, rest))
  {
    var ts := [Quoted(first)] + ([Sign(',')] + tail);
    assert ts[1..] == [Sign(',')] + tail && ts[1..][1..] == tail;
  }

  lemma {:induction false} ParseLabelsBack(enumerators: seq<Enumerator>, rest: seq<Token>)
    requires enumerators != [] && rest != [] && rest[0] == Sign(')')
    ensures ParseLabels(SeparatedTokens(LabelTokens(enumerators)) + rest) == Some((Names(enumerators), rest))
  {
    var chunks, name := LabelTokens(enumerators), enumerators[0].name;
    if |enumerators| == 1 {
      assert SeparatedTokens(chunks) + rest == [Quoted(name)] + rest;
      assert Names(enumerators) == [name];
      ParseLabelsEnds(name, rest);
    } else {
      ParseLabelsBack(enumerators[1..], rest);
      var tail := SeparatedTokens(chunks[1..]) + rest;
      assert chunks[1..] == LabelTokens(enumerators[1..]);
      assert SeparatedTokens(chunks) + rest == [Quoted(name)] + ([Sign(',')] + tail);
      assert Names(enumerators) == [name] + Names(enumerators[1..]);
      ParseLabelsGoesOn(name, tail, Names(enumerators[1..]), rest);
    }
  }

  lemma {:induction false} ParseEnumTokens(labels: seq<Token>, names: seq<string>, tail: seq<Token>)
    requires ParseLabels(labels + ([Sign(')')] + tail)) == Some((names, [Sign(')')] + tail))
    ensures ParseType([Word("ENUM"), Sign('(')] + (labels + ([Sign(')')] + tail))) == Some((EnumColumn(names), tail))
  {
    var inside := labels + ([Sign(')')] + tail);
    assert ([Word("ENUM"), Sign('(')] + inside)[1..] == [Sign('(')] + inside;
    assert ([Sign('(')] + inside)[1..] == inside;
    assert ([Sign(')')] + tail)[1..] == tail;
  }

  lemma {:induction false} ParseEnumType(enumerators: seq<Enumerator>, rest: seq<Token>)
    requires enumerators != []
    ensures ParseType(EnumTokens(enumerators) + rest)
         == Some((EnumColumn(Names(enumerators)), [Word("NOT"), Word("NULL")] + rest))
  {
    var labels := SeparatedTokens(LabelTokens(enumerators));
    var tail, close := [Word("NOT"), Word("NULL")] + rest, [Sign(')'), Word("NOT"), Word("NULL")];
    TokensReassociate([Word("ENUM"), Sign('(')], labels, close, rest);
    assert close + rest == [Sign(')')] + tail;
    ParseLabelsBack(enumerators, [Sign(')')] + tail);
    ParseEnumTokens(labels, Names(enumerators), tail);
  }

  lemma {:induction false} ParseNotNull(rest: seq<Token>)
    ensures Eat(Keywords(["NOT", "NULL"]), [Word("NOT"), Word("NULL")] + rest) == Some(rest)
  {
    TypeWords();
    assert ([Word("NOT"), Word("NULL")] + rest)[2..] == rest;
  }

  lemma {:induction false} ParseColumnWith(
      name: string, ts: seq<Token>, ty: ColumnType, afterType: seq<Token>, rest: seq<Token>)
    requires ParseType(ts) == Some((ty, afterType)) && Eat(Keywords(["NOT", "NULL"]), afterType) == Some(rest)
    requires AtItemEnd(rest)
    ensures ParseColumn([Word(name)] + ts) == Some((ColumnItem(name, ty, None), rest))
  {
    assert ([Word(name)] + ts)[1..] == ts;
  }

  lemma {:induction false} ParseEnumColumn(m: Member, rest: seq<Token>)
    requires Presentable(m) && m.ty.Enumeration? && AtItemEnd(rest)
    ensures ParseColumn(ColumnTokens(m) + rest) == Some((ColumnOf(m), rest))
  {
    var afterName, afterType := EnumTokens(m.ty.enumerators) + rest, [Word("NOT"), Word("NULL")] + rest;
    assert ColumnTokens(m) + rest == [Word(m.name)] + afterName by {
      Reassociate([Word(m.name)], EnumTokens(m.ty.enumerators), rest);
    }
    ParseEnumType(m.ty.enumerators, rest);
    ParseNotNull(rest);
    ParseColumnWith(m.name, afterName, EnumColumn(Names(m.ty.enumerators)), afterType, rest);
  }

  /** The tokens of one list item, and the item that a server parses from them whatever comes next. */
  ghost predicate Reads(tokens: seq<Token>, item: Item) {
    forall rest {:trigger ParseItem(tokens + rest)} ::
      AtItemEnd(rest) ==> ParseItem(tokens + rest) == Some((item, rest))
  }

  lemma {:induction false} ColumnReads(m: Member)
    requires Presentable(m) && !m.ty.Address?
    ensures Reads(ColumnTokens(m), ColumnOf(m))
  {
    forall rest | AtItemEnd(rest)
      ensures ParseItem(ColumnTokens(m) + rest) == Some((ColumnOf(m), rest))
    {
      var ts := ColumnTokens(m) + rest;
      assert ts[1].Word? && ts[1] != Word("KEY") by {
        if m.ty.Enumeration? { assert ts[1] == Word("ENUM"); } else { assert ts[1] == Word(SpecOf(m.ty).base); }
      }
      assert !([Word("PRIMARY"), Word("KEY"), Sign('(')] <= ts) by {
        assert [Word("PRIMARY"), Word("KEY"), Sign('(')][1] == Word("KEY");
      }
      assert !([Word("KEY"), Sign('(')] <= ts) by {
        assert [Word("KEY"), Sign('(')][1] == Sign('(');
      }
      if m.ty.Enumeration? { ParseEnumColumn(m, rest); } else { ParsePlainColumn(m, rest); }
    }
  }

  lemma {:induction false} KeyReads(m: Member)
    requires !m.key.NotKey?
    ensures Reads(KeyTokens(m), KeyItem(m.key.PrimaryKey?, m.name))
  {
    forall rest | AtItemEnd(rest)
      ensures ParseItem(KeyTokens(m) + rest) == Some((KeyItem(m.key.PrimaryKey?, m.name), rest))
    {
      var ts := KeyTokens(m) + rest;
      var inside := [Word(m.name), Sign(')')] + rest;
      assert inside[1..] == [Sign(')')] + rest && ([Sign(')')] + rest)[1..] == rest;
      if m.key.PrimaryKey? {
        assert ts == [Word("PRIMARY"), Word("KEY"), Sign('(')] + inside;
        assert ts[3..] == inside;
      } else {
        assert ts == [Word("KEY"), Sign('(')] + inside;
        assert ts[2..] == inside;
        assert ts[0] != Word("PRIMARY");
      }
    }
  }

  ghost predicate AllRead(chunks: seq<seq<Token>>, items: seq<Item>)
    decreases |chunks|
  {
    |chunks| == |items| &&
    (chunks == [] || (Reads(chunks[0], items[0]) && AllRead(chunks[1..], items[1..])))
  }

  lemma {:induction false} ParseItemThere(chunk: seq<Token>, item: Item, rest: seq<Token>)
    requires Reads(chunk, item) && AtItemEnd(rest)
    ensures ParseItem(chunk + rest) == Some((item, rest))
  {
  }

  lemma {:induction false} ParseItemsGoOn(
      first: seq<Token>, item: Item, tail: seq<Token>, items: seq<Item>, rest: seq<Token>)
    requires Reads(first, item) && ParseItems(tail) == Some((items, rest))
    ensures ParseItems(first + ([Sign(',')] + tail)) == Some(([item] + items, rest))
  {
    ParseItemThere(first, item, [Sign(',')] + tail);
    assert ([Sign(',')] + tail)[1..] == tail;
  }

  lemma {:induction false} ParseItemsBack(chunks: seq<seq<Token>>, items: seq<Item>, rest: seq<Token>)
    requires chunks != [] && AllRead(chunks, items) && rest != [] && rest[0] == Sign(')')
    ensures ParseItems(SeparatedTokens(chunks) + rest) == Some((items, rest))
    decreases |chunks|
  {
    if |chunks| == 1 {
      ParseItemThere(chunks[0], items[0], rest);
      assert items == [items[0]];
    } else {
      var tail := SeparatedTokens(chunks[1..]);
      assert ParseItems(tail + rest) == Some((items[1..], rest)) by {
        ParseItemsBack(chunks[1..], items[1..], rest);
      }
      assert SeparatedTokens(chunks) + rest == chunks[0] + ([Sign(',')] + (tail + rest)) by {
        TokensReassociate(chunks[0], [Sign(',')], tail, rest);
      }
      assert items == [items[0]] + items[1..];
      ParseItemsGoOn(chunks[0], items[0], tail + rest, items[1..], rest);
    }
  }
}
