/** The CREATE TABLE command: its text for every struct, and what a server parses from it. */
module CreateRoundTrip {
  import opened StringUtils
  import opened Reflection
  import opened SqlLiterals
  import opened SqlText
  import opened Schema
  import opened SqlParser
  import opened SchemaPieces
  import opened SchemaRoundTrip

  predicate AllPresentable(members: seq<Member>) {
    members == [] || (Presentable(members[0]) && AllPresentable(members[1..]))
  }

  lemma {:induction false} FlattenedIsPresentable(m: Member)
    requires Presentable(m)
    ensures Presentable(Flattened(m)) && !Flattened(m).ty.Address? && ColumnOf(Flattened(m)) == ColumnOf(m)
    ensures IsKey(Flattened(m)) <==> Keyed(m)
  {
    if m.ty.Address? {
      assert IsWordChar('_') && IsWordChar('r') && IsWordChar('v');
    }
  }

  // ------------------------------------------------------------ item lists

  function ColumnChunks(members: seq<Member>): (chunks: seq<seq<Piece>>)
    requires AllPresentable(members)
    ensures |chunks| == |members|
  {
    if members == [] then []
    else
      FlattenedIsPresentable(members[0]);
      [ColumnPieces(Flattened(members[0]))] + ColumnChunks(members[1..])
  }

  function KeyChunks(members: seq<Member>): seq<seq<Piece>> {
    if members == [] then []
    else (if Keyed(members[0]) then [KeyPieces(members[0])] else []) + KeyChunks(members[1..])
  }

  lemma {:induction false} ColumnChunksRead(members: seq<Member>)
    requires AllPresentable(members)
    ensures AllLegible(ColumnChunks(members))
    ensures Terminated(ColumnChunks(members)) == ColumnsText(members, true)
    ensures AllRead(TokensOfEach(ColumnChunks(members)), ColumnsOf(members))
  {
    if members != [] {
      var m := Flattened(members[0]);
      FlattenedIsPresentable(members[0]);
      if m.ty.Enumeration? { EnumerationIsLegible(m); } else { PlainIsLegible(m); }
      ColumnReads(m);
      ColumnChunksRead(members[1..]);
    }
  }

  lemma {:induction false} KeyChunksRead(members: seq<Member>)
    requires AllPresentable(members)
    ensures AllLegible(KeyChunks(members))
    ensures Terminated(KeyChunks(members)) == KeysText(members)
    ensures AllRead(TokensOfEach(KeyChunks(members)), KeysOf(members))
  {
    if members != [] {
      var m := members[0];
      FlattenedIsPresentable(m);
      KeyChunksRead(members[1..]);
      if Keyed(m) {
        KeyIsLegible(m);
        KeyReads(m);
        assert KeyChunks(members)[1..] == KeyChunks(members[1..]);
      } else {
        assert KeyChunks(members) == KeyChunks(members[1..]);
        assert KeysOf(members) == KeysOf(members[1..]);
        assert KeyText(Flattened(m)) == "";
        assert "" + KeysText(members[1..]) == KeysText(members[1..]);
      }
    }
  }

  lemma {:induction false} ChunksAppend(a: seq<seq<Piece>>, b: seq<seq<Piece>>, x: seq<Item>, y: seq<Item>)
    requires AllLegible(a) && AllLegible(b)
    requires AllRead(TokensOfEach(a), x) && AllRead(TokensOfEach(b), y)
    ensures AllLegible(a + b) && Terminated(a + b) == Terminated(a) + Terminated(b)
    ensures AllRead(TokensOfEach(a + b), x + y)
  {
    if a == [] {
      assert a + b == b && x + y == y && "" + Terminated(b) == Terminated(b);
    } else {
      assert (a + b)[1..] == a[1..] + b && (x + y)[1..] == x[1..] + y;
      assert TokensOfEach(a)[1..] == TokensOfEach(a[1..]);
      ChunksAppend(a[1..], b, x[1..], y);
      assert TokensOfEach(a + b)[1..] == TokensOfEach(a[1..] + b);
      Reassociate(Render(a[0]) + ",", Terminated(a[1..]), Terminated(b));
    }
  }

  // ------------------------------------------------------------- statement

  /** `if (Ar.Result.back() == ',') Ar.Result.pop_back();` */
  function WithoutLastComma(s: string): string {
    if s != "" && s[|s| - 1] == ',' then s[..|s| - 1] else s
  }

  /** The text that `CreateTable` builds. */
  function CreateText(name: string, desc: string, members: seq<Member>): string {
    WithoutLastComma("CREATE TABLE " + name + "(" + ColumnsText(members, true) + KeysText(members))
    + ") Engine=MyISAM" + " COMMENT='" + Doubled(desc) + "';"
  }

  function HeadPieces(name: string): seq<Piece> {
    [W("CREATE"), Gap, W("TABLE"), Gap] + [W(name), S('(')]
  }

  function TailPieces(desc: string): seq<Piece> {
    [S(')'), Gap, W("Engine"), S('=')] + ([W("MyISAM"), Gap, W("COMMENT"), S('=')] + [Q(Doubled(desc)), S(';')])
  }

  lemma {:induction false} CreateIsLegible()
    ensures var ps := [W("CREATE"), Gap, W("TABLE"), Gap];
      WellSpaced(ps) && Tokens(ps) == [Word("CREATE"), Word("TABLE")] && Render(ps) == "CREATE TABLE "
  {
    Four(W("CREATE"), Gap, W("TABLE"), Gap);
    assert [Word("CREATE")] + ([] + ([Word("TABLE")] + [])) == [Word("CREATE"), Word("TABLE")];
    assert "CREATE" + (" " + ("TABLE" + " ")) == "CREATE TABLE ";
  }

  lemma {:induction false} HeadIsLegible(name: string)
    requires IsName(name)
    ensures WellSpaced(HeadPieces(name))
    ensures Tokens(HeadPieces(name)) == [Word("CREATE"), Word("TABLE"), Word(name), Sign('(')]
    ensures Render(HeadPieces(name)) == "CREATE TABLE " + (name + "(")
  {
    CreateIsLegible();
    Two(W(name), S('('));
    Append([W("CREATE"), Gap, W("TABLE"), Gap], [W(name), S('(')]);
  }

  lemma {:induction false} EngineIsLegible()
    ensures var ps := [S(')'), Gap, W("Engine"), S('=')];
      WellSpaced(ps) && Tokens(ps) == [Sign(')'), Word("Engine"), Sign('=')] && Render(ps) == ") Engine="
  {
    Four(S(')'), Gap, W("Engine"), S('='));
    assert ")" + (" " + ("Engine" + "=")) == ") Engine=";
    assert [Sign(')')] + ([] + ([Word("Engine")] + [Sign('=')])) == [Sign(')'), Word("Engine"), Sign('=')];
  }

  lemma {:induction false} CommentSettingIsLegible()
    ensures var ps := [W("MyISAM"), Gap, W("COMMENT"), S('=')];
      WellSpaced(ps) && Tokens(ps) == [Word("MyISAM"), Word("COMMENT"), Sign('=')] && Render(ps) == "MyISAM COMMENT="
  {
    var ps := [W("MyISAM"), Gap, W("COMMENT"), S('=')];
    Four(W("MyISAM"), Gap, W("COMMENT"), S('='));
    assert Render(ps) == "MyISAM COMMENT=" by {
      assert "MyISAM" + (" " + ("COMMENT" + "=")) == "MyISAM COMMENT=";
    }
    assert Tokens(ps) == [Word("MyISAM"), Word("COMMENT"), Sign('=')] by {
      assert [Word("MyISAM")] + ([] + ([Word("COMMENT")] + [Sign('=')]))
          == [Word("MyISAM"), Word("COMMENT"), Sign('=')];
    }
  }

  function TailTokens(desc: string): seq<Token> {
    [Sign(')'), Word("Engine"), Sign('='), Word("MyISAM"), Word("COMMENT"), Sign('='),
     Quoted(CommentOf(desc)), Sign(';')]
  }

  lemma {:induction false} TailIsText(raw: string)
    ensures ") Engine=" + ("MyISAM COMMENT=" + (("'" + raw + "'") + ";"))
         == ") Engine=MyISAM" + " COMMENT='" + raw + "';"
  {
    assert ") Engine=" + ("MyISAM COMMENT=" + "'") == ") Engine=MyISAM" + " COMMENT='";
    assert "'" + ";" == "';";
    Reassociate("'" + raw, "'", ";");
  }

  lemma {:induction false} TailIsLegible(desc: string)
    requires KeepsItsQuotes(desc)
    ensures WellSpaced(TailPieces(desc)) && TailPieces(desc)[0] == S(')')
    ensures Tokens(TailPieces(desc)) == TailTokens(desc)
    ensures Render(TailPieces(desc)) == ") Engine=MyISAM" + " COMMENT='" + Doubled(desc) + "';"
  {
    DescriptionIsRead(desc);
    EngineIsLegible();
    CommentSettingIsLegible();
    Two(Q(Doubled(desc)), S(';'));
    Append([W("MyISAM"), Gap, W("COMMENT"), S('=')], [Q(Doubled(desc)), S(';')]);
    Append([S(')'), Gap, W("Engine"), S('=')], [W("MyISAM"), Gap, W("COMMENT"), S('=')] + [Q(Doubled(desc)), S(';')]);
    TailIsText(Doubled(desc));
  }

  /** Text and tokens of the whole command. */
  lemma {:induction false} LexCreate(name: string, desc: string, members: seq<Member>)
    requires members != [] && AllPresentable(members) && IsName(name) && KeepsItsQuotes(desc)
    ensures AllLegible(ColumnChunks(members) + KeyChunks(members))
    ensures Lex(CreateText(name, desc, members))
         == [Word("CREATE"), Word("TABLE"), Word(name), Sign('(')]
            + (SeparatedTokens(TokensOfEach(ColumnChunks(members) + KeyChunks(members))) + TailTokens(desc))
  {
    var chunks := ColumnChunks(members) + KeyChunks(members);
    var head, body, tail := HeadPieces(name), Separated(chunks), TailPieces(desc);
    ColumnChunksRead(members);
    KeyChunksRead(members);
    ChunksAppend(ColumnChunks(members), KeyChunks(members), ColumnsOf(members), KeysOf(members));
    HeadIsLegible(name);
    TailIsLegible(desc);
    SeparatedIsLegible(chunks);
    Append(body, tail);
    Append(head, body + tail);
    LexRender(head + (body + tail));
    BodyLosesItsComma("CREATE TABLE " + (name + "("), Render(body), ColumnsText(members, true), KeysText(members));
    Reassociate("CREATE TABLE ", name, "(");
    Reassociate(Render(head), Render(body), Render(tail));
    CreateIsText(name, desc, members, Render(head), Render(body));
  }

  lemma {:induction false} BodyLosesItsComma(head: string, body: string, columns: string, keys: string)
    requires body + "," == columns + keys
    ensures WithoutLastComma(head + columns + keys) == head + body
  {
    Reassociate(head, columns, keys);
    Reassociate(head, body, ",");
    assert (head + body + ",")[..|head + body|] == head + body;
  }

  lemma {:induction false} CreateIsText(name: string, desc: string, members: seq<Member>, head: string, body: string)
    requires head == "CREATE TABLE " + name + "("
    requires WithoutLastComma(head + ColumnsText(members, true) + KeysText(members)) == head + body
    ensures head + body + (") Engine=MyISAM" + " COMMENT='" + Doubled(desc) + "';") == CreateText(name, desc, members)
  {
    ReassociateTail(head + body, ") Engine=MyISAM", " COMMENT='", Doubled(desc), "';");
  }

  /** The CREATE TABLE command defines the columns in member order, and then one key per keyed member. */
  lemma {:induction false} ParseCreateBack(name: string, desc: string, members: seq<Member>)
    requires members != [] && AllPresentable(members) && IsName(name) && KeepsItsQuotes(desc)
    ensures Parse(CreateText(name, desc, members))
         == Some(CreateTable(name, ColumnsOf(members) + KeysOf(members), CommentOf(desc)))
  {
    var chunks, items := ColumnChunks(members) + KeyChunks(members), ColumnsOf(members) + KeysOf(members);
    ColumnChunksRead(members);
    KeyChunksRead(members);
    ChunksAppend(ColumnChunks(members), KeyChunks(members), ColumnsOf(members), KeysOf(members));
    LexCreate(name, desc, members);
    ParseItemsBack(TokensOfEach(chunks), items, TailTokens(desc));
    ParseCreateTokens(name, desc, SeparatedTokens(TokensOfEach(chunks)), items);
    ParseIsCreate(CreateText(name, desc, members), name, SeparatedTokens(TokensOfEach(chunks)) + TailTokens(desc));
  }

  lemma {:induction false} ParseCreateTokens(name: string, desc: string, body: seq<Token>, items: seq<Item>)
    requires ParseItems(body + TailTokens(desc)) == Some((items, TailTokens(desc)))
    ensures ParseCreate([Word(name), Sign('(')] + (body + TailTokens(desc)))
         == Some(CreateTable(name, items, CommentOf(desc)))
  {
    var ts := [Word(name), Sign('(')] + (body + TailTokens(desc));
    assert ts[1..] == [Sign('(')] + (body + TailTokens(desc));
    assert ts[1..][1..] == body + TailTokens(desc);
    assert TailTokens(desc)[6..] == [Quoted(CommentOf(desc)), Sign(';')];
    assert [Quoted(CommentOf(desc)), Sign(';')][1..] == [Sign(';')];
  }

  lemma {:induction false} ParseIsCreate(command: string, name: string, inside: seq<Token>)
    requires Lex(command) == [Word("CREATE"), Word("TABLE"), Word(name), Sign('(')] + inside
    ensures Parse(command) == ParseCreate([Word(name), Sign('(')] + inside)
  {
    var ts := Lex(command);
    CreateKeywords();
    assert !(Keywords(["DROP", "TABLE", "IF", "EXISTS"]) <= ts);
    assert Keywords(["CREATE", "TABLE"]) <= ts;
    assert ts[2..] == [Word(name), Sign('(')] + inside;
  }

  lemma {:induction false} CreateKeywords()
    ensures Keywords(["DROP", "TABLE", "IF", "EXISTS"])[0] == Word("DROP")
    ensures Keywords(["CREATE", "TABLE"]) == [Word("CREATE"), Word("TABLE")]
  {
    assert ["CREATE", "TABLE"][1..] == ["TABLE"] && ["TABLE"][1..] == [];
    assert Keywords(["TABLE"]) == [Word("TABLE")];
  }
}
