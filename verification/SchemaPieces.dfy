/** The generated schema text as pieces, and the tokens a server lexes from it. */
module SchemaPieces {
  import opened StringUtils
  import opened Reflection
  import opened SqlLiterals
  import opened SqlText
  import opened Schema
  import opened SqlParser

  // ------------------------------------------------------ building blocks

  predicate MayTouch(a: Piece, b: Piece) {
    Soft(a) || Soft(b) || a.W? != b.W?
  }

  lemma {:induction false} One(a: Piece)
    requires Legible(a)
    ensures WellSpaced([a]) && Tokens([a]) == Meant(a) && Render([a]) == Show(a)
  {
    assert [a][1..] == [];
    assert Show(a) + "" == Show(a);
  }

  lemma {:induction false} Two(a: Piece, b: Piece)
    requires Legible(a) && Legible(b) && MayTouch(a, b)
    ensures WellSpaced([a, b]) && Tokens([a, b]) == Meant(a) + Meant(b) && Render([a, b]) == Show(a) + Show(b)
  {
    assert [a, b][1..] == [b];
    One(b);
  }

  lemma {:induction false} Three(a: Piece, b: Piece, c: Piece)
    requires Legible(a) && Legible(b) && Legible(c) && MayTouch(a, b) && MayTouch(b, c)
    ensures WellSpaced([a, b, c]) && Tokens([a, b, c]) == Meant(a) + (Meant(b) + Meant(c))
    ensures Render([a, b, c]) == Show(a) + (Show(b) + Show(c))
  {
    assert [a, b, c][1..] == [b, c];
    Two(b, c);
  }

  lemma {:induction false} Four(a: Piece, b: Piece, c: Piece, d: Piece)
    requires Legible(a) && Legible(b) && Legible(c) && Legible(d)
    requires MayTouch(a, b) && MayTouch(b, c) && MayTouch(c, d)
    ensures WellSpaced([a, b, c, d]) && Tokens([a, b, c, d]) == Meant(a) + (Meant(b) + (Meant(c) + Meant(d)))
    ensures Render([a, b, c, d]) == Show(a) + (Show(b) + (Show(c) + Show(d)))
  {
    assert [a, b, c, d][1..] == [b, c, d];
    Three(b, c, d);
  }

  /** Two stretches of pieces, one after the other. */
  lemma {:induction false} Append(a: seq<Piece>, b: seq<Piece>)
    requires WellSpaced(a) && WellSpaced(b)
    requires a != [] && b != [] ==> Soft(a[|a| - 1]) || Soft(b[0])
    ensures WellSpaced(a + b) && Tokens(a + b) == Tokens(a) + Tokens(b) && Render(a + b) == Render(a) + Render(b)
  {
    TokensAppend(a, b);
    RenderAppend(a, b);
  }

  /** Keywords, each behind a blank. */
  function Spaced(words: seq<string>): seq<Piece> {
    if words == [] then [] else [Gap, W(words[0])] + Spaced(words[1..])
  }

  function SpacedText(words: seq<string>): string {
    if words == [] then "" else " " + words[0] + SpacedText(words[1..])
  }

  predicate AllNames(words: seq<string>) {
    words == [] || (IsName(words[0]) && AllNames(words[1..]))
  }

  lemma {:induction false} SpacedPieces(words: seq<string>)
    requires AllNames(words)
    ensures WellSpaced(Spaced(words)) && Tokens(Spaced(words)) == Keywords(words)
    ensures Render(Spaced(words)) == SpacedText(words)
    ensures words != [] ==> Spaced(words)[0] == Gap
  {
    if words != [] {
      SpacedPieces(words[1..]);
      Two(Gap, W(words[0]));
      Append([Gap, W(words[0])], Spaced(words[1..]));
    }
  }

  // --------------------------------------------------------------- columns

  /** The parts of a type: its name, its width in parentheses, the words behind. */
  datatype TypeSpec = TypeSpec(base: string, width: string, words: seq<string>)

  function SpecOf(ty: MemberType): TypeSpec {
    match ty
    case Int32 => TypeSpec("INT", "", ["NOT", "NULL"])
    case UInt32 => TypeSpec("INT", "", ["UNSIGNED", "NOT", "NULL"])
    case Long => TypeSpec("BIGINT", "", ["NOT", "NULL"])
    case ULong => TypeSpec("INT", "", ["UNSIGNED", "NOT", "NULL"])
    case LongLong => TypeSpec("BIGINT", "", ["NOT", "NULL"])
    case ULongLong => TypeSpec("BIGINT", "", ["UNSIGNED", "NOT", "NULL"])
    case UChar => TypeSpec("INT", "3", ["UNSIGNED", "NOT", "NULL"])
    case Characters => TypeSpec("VARCHAR", "2047", ["NOT", "NULL"])
    case Boolean => TypeSpec("BIT", "1", ["NOT", "NULL"])
    case Address => TypeSpec("INT", "", ["UNSIGNED", "NOT", "NULL"])
    case Enumeration(_) => TypeSpec("ENUM", "", ["NOT", "NULL"])
  }

  function WidthPieces(width: string): seq<Piece> {
    if width == "" then [] else [S('('), W(width), S(')')]
  }

  function WidthTokens(width: string): seq<Token> {
    if width == "" then [] else [Sign('('), Word(width), Sign(')')]
  }

  function SpecText(spec: TypeSpec): string {
    " " + spec.base + ((if spec.width == "" then "" else "(" + (spec.width + ")")) + SpacedText(spec.words))
  }

  function SpecPieces(spec: TypeSpec): seq<Piece> {
    [Gap, W(spec.base)] + (WidthPieces(spec.width) + Spaced(spec.words))
  }

  function SpecTokens(spec: TypeSpec): seq<Token> {
    [Word(spec.base)] + (WidthTokens(spec.width) + Keywords(spec.words))
  }

  lemma {:induction false} WidthIsLegible(width: string)
    requires width == "" || IsName(width)
    ensures WellSpaced(WidthPieces(width)) && Tokens(WidthPieces(width)) == WidthTokens(width)
    ensures Render(WidthPieces(width)) == if width == "" then "" else "(" + (width + ")")
  {
    if width != "" {
      Three(S('('), W(width), S(')'));
      assert [Sign('(')] + ([Word(width)] + [Sign(')')]) == WidthTokens(width);
    }
  }

  lemma {:induction false} SpecIsLegible(spec: TypeSpec)
    requires IsName(spec.base) && (spec.width == "" || IsName(spec.width)) && AllNames(spec.words)
    ensures WellSpaced(SpecPieces(spec)) && Tokens(SpecPieces(spec)) == SpecTokens(spec)
    ensures Render(SpecPieces(spec)) == SpecText(spec)
  {
    Two(Gap, W(spec.base));
    SpacedPieces(spec.words);
    WidthIsLegible(spec.width);
    Append(WidthPieces(spec.width), Spaced(spec.words));
    Append([Gap, W(spec.base)], WidthPieces(spec.width) + Spaced(spec.words));
  }

  lemma {:induction false} NotNullWords()
    ensures SpacedText(["NOT", "NULL"]) == " NOT NULL" && AllNames(["NOT", "NULL"])
  {
    assert ["NOT", "NULL"][1..] == ["NULL"] && ["NULL"][1..] == [];
    assert SpacedText(["NULL"]) == " NULL";
    assert AllNames(["NULL"]);
  }

  lemma {:induction false} UnsignedWords()
    ensures SpacedText(["UNSIGNED", "NOT", "NULL"]) == " UNSIGNED NOT NULL" && AllNames(["UNSIGNED", "NOT", "NULL"])
  {
    NotNullWords();
    assert ["UNSIGNED", "NOT", "NULL"][1..] == ["NOT", "NULL"];
    assert IsName("UNSIGNED");
  }

  lemma {:induction false} SignedSpec(base: string)
    ensures SpecText(TypeSpec(base, "", ["NOT", "NULL"])) == " " + base + " NOT NULL"
  {
    NotNullWords();
    assert "" + " NOT NULL" == " NOT NULL";
  }

  lemma {:induction false} UnsignedSpec(base: string)
    ensures SpecText(TypeSpec(base, "", ["UNSIGNED", "NOT", "NULL"])) == " " + base + " UNSIGNED NOT NULL"
  {
    UnsignedWords();
    assert "" + " UNSIGNED NOT NULL" == " UNSIGNED NOT NULL";
  }

  lemma {:induction false} IntSpec()
    ensures SpecText(TypeSpec("INT", "", ["NOT", "NULL"])) == " INT NOT NULL"
  {
    SignedSpec("INT");
    assert " " + "INT" + " NOT NULL" == " INT NOT NULL";
  }

  lemma {:induction false} UnsignedIntSpec()
    ensures SpecText(TypeSpec("INT", "", ["UNSIGNED", "NOT", "NULL"])) == " INT UNSIGNED NOT NULL"
  {
    UnsignedSpec("INT");
    assert " " + "INT" + " UNSIGNED NOT NULL" == " INT UNSIGNED NOT NULL";
  }

  lemma {:induction false} BigintSpec()
    ensures SpecText(TypeSpec("BIGINT", "", ["NOT", "NULL"])) == " BIGINT NOT NULL"
  {
    SignedSpec("BIGINT");
    assert " " + "BIGINT" + " NOT NULL" == " BIGINT NOT NULL";
  }

  lemma {:induction false} UnsignedBigintSpec()
    ensures SpecText(TypeSpec("BIGINT", "", ["UNSIGNED", "NOT", "NULL"])) == " BIGINT UNSIGNED NOT NULL"
  {
    UnsignedSpec("BIGINT");
    assert " " + "BIGINT" + " UNSIGNED NOT NULL" == " BIGINT UNSIGNED NOT NULL";
  }

  lemma {:induction false} WideSpecs()
    ensures SpecText(TypeSpec("INT", "3", ["UNSIGNED", "NOT", "NULL"])) == " INT(3) UNSIGNED NOT NULL"
  {
    UnsignedWords();
    assert " " + "INT" + (("(" + ("3" + ")")) + " UNSIGNED NOT NULL") == " INT(3) UNSIGNED NOT NULL";
  }

  lemma {:induction false} VarcharSpec()
    ensures SpecText(TypeSpec("VARCHAR", "2047", ["NOT", "NULL"])) == " VARCHAR(2047) NOT NULL"
  {
    NotNullWords();
    assert " " + "VARCHAR" + (("(" + ("2047" + ")")) + " NOT NULL") == " VARCHAR(2047) NOT NULL";
  }

  /** The types are spelled as drpdb spells them. */
  lemma {:induction false} SpecIsType(ty: MemberType)
    requires !ty.Boolean? && !ty.Enumeration? && !ty.Address?
    ensures SpecText(SpecOf(ty)) == TypeText(ty)
  {
    IntSpec();
    UnsignedIntSpec();
    BigintSpec();
    UnsignedBigintSpec();
    WideSpecs();
    VarcharSpec();
  }

  lemma {:induction false} SpecIsSpelled(ty: MemberType)
    ensures var spec := SpecOf(ty);
      IsName(spec.base) && (spec.width == "" || IsName(spec.width)) && AllNames(spec.words)
  {
    NotNullWords();
    UnsignedWords();
  }

  // ---------------------------------------------------- names in quotes

  lemma {:induction false} NameNeedsNoDoubling(name: string)
    requires forall c :: c in name ==> IsWordChar(c)
    ensures DoubledQuotes(name) == name && BackslashSafe(name)
  {
    if name != "" {
      assert name[0] in name && forall c :: c in name[1..] ==> c in name;
      NameNeedsNoDoubling(name[1..]);
      assert name == [name[0]] + name[1..];
    }
  }

  /** A name between quotes is read back as itself. */
  lemma {:induction false} NameDecodes(name: string)
    requires forall c :: c in name ==> IsWordChar(c)
    ensures Decoded(name) == Some(name)
  {
    NameNeedsNoDoubling(name);
    ReplaceOneChar(name, '\'', "''");
    DescriptionSurvives(name);
  }

  // ------------------------------------------------------------ comma lists

  /** Stretches of pieces with commas between them. */
  function Separated(chunks: seq<seq<Piece>>): seq<Piece>
    requires chunks != []
  {
    if |chunks| == 1 then chunks[0] else chunks[0] + ([S(',')] + Separated(chunks[1..]))
  }

  function SeparatedTokens(chunks: seq<seq<Token>>): seq<Token>
    requires chunks != []
  {
    if |chunks| == 1 then chunks[0] else chunks[0] + ([Sign(',')] + SeparatedTokens(chunks[1..]))
  }

  /** The same stretches with a comma behind each: what the generators append. */
  function Terminated(chunks: seq<seq<Piece>>): string {
    if chunks == [] then "" else Render(chunks[0]) + "," + Terminated(chunks[1..])
  }

  predicate AllLegible(chunks: seq<seq<Piece>>) {
    chunks == [] || (chunks[0] != [] && WellSpaced(chunks[0]) && AllLegible(chunks[1..]))
  }

  function TokensOfEach(chunks: seq<seq<Piece>>): seq<seq<Token>>
    requires AllLegible(chunks)
  {
    if chunks == [] then [] else [Tokens(chunks[0])] + TokensOfEach(chunks[1..])
  }

  /** Taking back the last comma of a terminated list leaves the separated one. */
  lemma {:induction false} SeparatedIsLegible(chunks: seq<seq<Piece>>)
    requires chunks != [] && AllLegible(chunks)
    ensures Separated(chunks) != [] && Separated(chunks)[0] == chunks[0][0]
    ensures WellSpaced(Separated(chunks))
    ensures Tokens(Separated(chunks)) == SeparatedTokens(TokensOfEach(chunks))
    ensures Render(Separated(chunks)) + "," == Terminated(chunks)
  {
    if |chunks| == 1 {
      assert Terminated(chunks[1..]) == "";
      assert Terminated(chunks) == Render(chunks[0]) + "," + "";
      assert TokensOfEach(chunks) == [Tokens(chunks[0])];
    } else {
      var rest := chunks[1..];
      SeparatedIsLegible(rest);
      One(S(','));
      Append([S(',')], Separated(rest));
      Append(chunks[0], [S(',')] + Separated(rest));
      assert TokensOfEach(chunks)[1..] == TokensOfEach(rest);
      ReassociateFour(Render(chunks[0]), ",", Render(Separated(rest)), ",");
    }
  }

  // --------------------------------------------------------------- labels

  function LabelChunks(enumerators: seq<Enumerator>): (chunks: seq<seq<Piece>>)
    ensures |chunks| == |enumerators|
  {
    if enumerators == [] then [] else [[Q(enumerators[0].name)]] + LabelChunks(enumerators[1..])
  }

  function LabelTokens(enumerators: seq<Enumerator>): (chunks: seq<seq<Token>>)
    ensures |chunks| == |enumerators|
  {
    if enumerators == [] then [] else [[Quoted(enumerators[0].name)]] + LabelTokens(enumerators[1..])
  }

  lemma {:induction false} LabelsAreLegible(enumerators: seq<Enumerator>)
    requires forall e :: e in enumerators ==> IsName(e.name)
    ensures AllLegible(LabelChunks(enumerators))
    ensures TokensOfEach(LabelChunks(enumerators)) == LabelTokens(enumerators)
    ensures Terminated(LabelChunks(enumerators)) == LabelsText(enumerators)
  {
    if enumerators != [] {
      var name, rest := enumerators[0].name, enumerators[1..];
      assert enumerators[0] in enumerators && forall e :: e in rest ==> e in enumerators;
      NameDecodes(name);
      One(Q(name));
      LabelsAreLegible(rest);
      assert "'" + name + "'" + "," == "'" + name + "',";
    }
  }

  // -------------------------------------------------------------- columns

  /** What a member needs so that its column can be read back. */
  predicate Presentable(m: Member) {
    && IsName(m.name) && NamesAreNames(m.ty)
    && (if m.ty.Enumeration? then m.ty.enumerators != [] else KeepsItsQuotes(m.desc))
  }

  function CommentPieces(desc: string): seq<Piece> {
    [Gap, W("COMMENT"), Gap, Q(Doubled(desc))]
  }

  function EnumPieces(enumerators: seq<Enumerator>): seq<Piece>
    requires enumerators != []
  {
    [Gap, W("ENUM"), S('(')] + (Separated(LabelChunks(enumerators)) + [S(')'), W("NOT"), Gap, W("NULL")])
  }

  function EnumTokens(enumerators: seq<Enumerator>): seq<Token>
    requires enumerators != []
  {
    [Word("ENUM"), Sign('(')] + (SeparatedTokens(LabelTokens(enumerators)) + [Sign(')'), Word("NOT"), Word("NULL")])
  }

  function ColumnPieces(m: Member): seq<Piece>
    requires Presentable(m)
  {
    [Gap, W(m.name)] +
    if m.ty.Enumeration? then EnumPieces(m.ty.enumerators) else SpecPieces(SpecOf(m.ty)) + CommentPieces(m.desc)
  }

  function ColumnTokens(m: Member): seq<Token>
    requires Presentable(m)
  {
    [Word(m.name)] +
    if m.ty.Enumeration? then EnumTokens(m.ty.enumerators)
    else SpecTokens(SpecOf(m.ty)) + [Word("COMMENT"), Quoted(CommentOf(m.desc))]
  }

  lemma {:induction false} CommentIsText(raw: string)
    ensures " " + ("COMMENT" + (" " + ("'" + raw + "'"))) + "," == " COMMENT '" + raw + "',"
  {
    assert " " + ("COMMENT" + (" " + "'")) == " COMMENT '";
    assert "'" + "," == "',";
  }

  lemma {:induction false} CommentIsLegible(desc: string)
    requires KeepsItsQuotes(desc)
    ensures WellSpaced(CommentPieces(desc)) && Tokens(CommentPieces(desc)) == [Word("COMMENT"), Quoted(CommentOf(desc))]
    ensures Render(CommentPieces(desc)) + "," == CommentText(desc)
  {
    DescriptionIsRead(desc);
    var raw := Doubled(desc);
    Four(Gap, W("COMMENT"), Gap, Q(raw));
    assert [] + ([Word("COMMENT")] + ([] + [Quoted(CommentOf(desc))])) == [Word("COMMENT"), Quoted(CommentOf(desc))];
    CommentIsText(raw);
  }

  lemma {:induction false} BoolSpec()
    ensures SpecText(SpecOf(Boolean)) == " BIT(1) NOT NULL"
  {
    NotNullWords();
    assert " " + "BIT" + (("(" + ("1" + ")")) + " NOT NULL") == " BIT(1) NOT NULL";
  }

  lemma {:induction false} PlainIsLegible(m: Member)
    requires Presentable(m) && !m.ty.Enumeration? && !m.ty.Address?
    ensures WellSpaced(ColumnPieces(m)) && Tokens(ColumnPieces(m)) == ColumnTokens(m)
    ensures Render(ColumnPieces(m)) + "," == ColumnText(m, true)
  {
    var spec, comment := SpecPieces(SpecOf(m.ty)), CommentPieces(m.desc);
    TypeIsLegible(m.ty);
    CommentIsLegible(m.desc);
    Append(spec, comment);
    Two(Gap, W(m.name));
    assert [] + [Word(m.name)] == [Word(m.name)];
    Append([Gap, W(m.name)], spec + comment);
    ReassociateFour(" " + m.name, Render(spec), Render(comment), ",");
  }

  lemma {:induction false} TypeIsLegible(ty: MemberType)
    requires !ty.Enumeration? && !ty.Address?
    ensures WellSpaced(SpecPieces(SpecOf(ty))) && Tokens(SpecPieces(SpecOf(ty))) == SpecTokens(SpecOf(ty))
    ensures Render(SpecPieces(SpecOf(ty))) == if ty.Boolean? then " BIT(1) NOT NULL" else TypeText(ty)
  {
    SpecIsSpelled(ty);
    SpecIsLegible(SpecOf(ty));
    if ty.Boolean? { BoolSpec(); } else { SpecIsType(ty); }
  }

  /** The part of an ENUM column behind its name. */
  lemma {:induction false} EnumIsLegible(enumerators: seq<Enumerator>)
    requires enumerators != [] && forall e :: e in enumerators ==> IsName(e.name)
    ensures var ps := EnumPieces(enumerators);
      && ps[0] == Gap && WellSpaced(ps) && Tokens(ps) == EnumTokens(enumerators)
      && Render(ps) == " ENUM(" + (Render(Separated(LabelChunks(enumerators))) + ")NOT NULL")
  {
    var labels := Separated(LabelChunks(enumerators));
    LabelsAreLegible(enumerators);
    SeparatedIsLegible(LabelChunks(enumerators));
    EnumCloseIsLegible();
    Append(labels, [S(')'), W("NOT"), Gap, W("NULL")]);
    EnumOpenIsLegible();
    Append([Gap, W("ENUM"), S('(')], labels + [S(')'), W("NOT"), Gap, W("NULL")]);
  }

  lemma {:induction false} EnumOpenIsLegible()
    ensures var ps := [Gap, W("ENUM"), S('(')];
      WellSpaced(ps) && Tokens(ps) == [Word("ENUM"), Sign('(')] && Render(ps) == " ENUM("
  {
    Three(Gap, W("ENUM"), S('('));
    assert [] + ([Word("ENUM")] + [Sign('(')]) == [Word("ENUM"), Sign('(')];
    assert " " + ("ENUM" + "(") == " ENUM(";
  }

  lemma {:induction false} EnumCloseIsLegible()
    ensures var ps := [S(')'), W("NOT"), Gap, W("NULL")];
      WellSpaced(ps) && Tokens(ps) == [Sign(')'), Word("NOT"), Word("NULL")] && Render(ps) == ")NOT NULL"
  {
    Four(S(')'), W("NOT"), Gap, W("NULL"));
    assert [Sign(')')] + ([Word("NOT")] + ([] + [Word("NULL")])) == [Sign(')'), Word("NOT"), Word("NULL")];
    assert ")" + ("NOT" + (" " + "NULL")) == ")NOT NULL";
  }

  lemma {:induction false} EnumerationIsText(name: string, enumerators: seq<Enumerator>, labels: string)
    requires LabelsText(enumerators) == labels + ","
    ensures " " + name + (" ENUM(" + (labels + ")NOT NULL")) + "," == EnumerationText(name, enumerators)
  {
    var open := " ENUM(" + LabelsText(enumerators);
    assert open[..|open| - 1] == " ENUM(" + labels;
    ReassociateFive(" " + name, " ENUM(", labels, ")NOT NULL", ",");
    assert ")NOT NULL" + "," == ")NOT NULL,";
  }

  lemma {:induction false} EnumerationIsLegible(m: Member)
    requires Presentable(m) && m.ty.Enumeration?
    ensures WellSpaced(ColumnPieces(m)) && Tokens(ColumnPieces(m)) == ColumnTokens(m)
    ensures Render(ColumnPieces(m)) + "," == ColumnText(m, true)
  {
    EnumIsLegible(m.ty.enumerators);
    Two(Gap, W(m.name));
    Append([Gap, W(m.name)], EnumPieces(m.ty.enumerators));
    assert LabelsText(m.ty.enumerators) == Render(Separated(LabelChunks(m.ty.enumerators))) + "," by {
      LabelsAreLegible(m.ty.enumerators);
      SeparatedIsLegible(LabelChunks(m.ty.enumerators));
    }
    EnumerationIsText(m.name, m.ty.enumerators, Render(Separated(LabelChunks(m.ty.enumerators))));
  }

  // ----------------------------------------------------------------- keys

  predicate IsKey(m: Member) {
    !m.ty.Boolean? && !m.key.NotKey?
  }

  function KeyPieces(m: Member): seq<Piece> {
    (if m.key.PrimaryKey? then [W("PRIMARY"), Gap] else []) + ([W("KEY"), Gap, S('(')] + [W(m.name), S(')')])
  }

  function KeyTokens(m: Member): seq<Token> {
    (if m.key.PrimaryKey? then [Word("PRIMARY")] else []) + [Word("KEY"), Sign('('), Word(m.name), Sign(')')]
  }

  lemma {:induction false} KeyIsText(name: string)
    ensures ("KEY" + (" " + "(")) + (name + ")") + "," == "KEY (" + name + "),"
  {
    assert "KEY" + (" " + "(") == "KEY (";
    assert ")" + "," == "),";
    ReassociateFour("KEY (", name, ")", ",");
  }

  lemma {:induction false} PlainKeyIsLegible(name: string)
    requires IsName(name)
    ensures var ps := [W("KEY"), Gap, S('(')] + [W(name), S(')')];
      && WellSpaced(ps) && Tokens(ps) == [Word("KEY"), Sign('('), Word(name), Sign(')')]
      && Render(ps) + "," == "KEY (" + name + "),"
  {
    Three(W("KEY"), Gap, S('('));
    Two(W(name), S(')'));
    Append([W("KEY"), Gap, S('(')], [W(name), S(')')]);
    assert [Word("KEY")] + ([] + [Sign('(')]) + ([Word(name)] + [Sign(')')])
        == [Word("KEY"), Sign('('), Word(name), Sign(')')];
    KeyIsText(name);
  }

  lemma {:induction false} PrimaryIsText(name: string, key: string)
    requires key + "," == "KEY (" + name + "),"
    ensures ("PRIMARY" + " ") + key + "," == "PRIMARY " + "KEY (" + name + "),"
  {
    assert "PRIMARY" + " " == "PRIMARY ";
    Reassociate("PRIMARY ", key, ",");
    ReassociateFour("PRIMARY ", "KEY (", name, "),");
    Reassociate("PRIMARY ", "KEY (" + name, "),");
    Reassociate("KEY (", name, "),");
  }

  lemma {:induction false} KeyIsLegible(m: Member)
    requires IsName(m.name) && IsKey(m)
    ensures KeyPieces(m) != [] && WellSpaced(KeyPieces(m)) && Tokens(KeyPieces(m)) == KeyTokens(m)
    ensures Render(KeyPieces(m)) + "," == KeyText(m)
  {
    var key := [W("KEY"), Gap, S('(')] + [W(m.name), S(')')];
    PlainKeyIsLegible(m.name);
    if m.key.PrimaryKey? {
      Two(W("PRIMARY"), Gap);
      assert [Word("PRIMARY")] + [] == [Word("PRIMARY")];
      Append([W("PRIMARY"), Gap], key);
      PrimaryIsText(m.name, Render(key));
    } else {
      assert [] + key == key;
      assert [] + [Word("KEY"), Sign('('), Word(m.name), Sign(')')]
          == [Word("KEY"), Sign('('), Word(m.name), Sign(')')];
    }
  }
}
