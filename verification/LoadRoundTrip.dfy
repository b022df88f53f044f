/** The LOAD DATA command: its text for every struct, and what a server parses from it. */
module LoadRoundTrip {
  import opened StringUtils
  import opened Reflection
  import opened SqlLiterals
  import opened SqlText
  import opened Schema
  import opened SqlParser
  import opened SchemaPieces
  import opened SchemaRoundTrip

  // --------------------------------------------------------------- targets

  function TargetPieces(m: Member): seq<Piece> {
    if m.ty.Boolean? then [S('@'), W("tmp_" + m.name)] else [W(ColumnName(m))]
  }

  function TargetTokens(t: Target): seq<Token> {
    match t
    case Variable(name) => [Sign('@'), Word(name)]
    case Column(name) => [Word(name)]
  }

  function TargetChunks(members: seq<Member>): (chunks: seq<seq<Piece>>)
    ensures |chunks| == |members|
  {
    if members == [] then [] else [TargetPieces(members[0])] + TargetChunks(members[1..])
  }

  function TokensOfTargets(targets: seq<Target>): (chunks: seq<seq<Token>>)
    ensures |chunks| == |targets|
  {
    if targets == [] then [] else [TargetTokens(targets[0])] + TokensOfTargets(targets[1..])
  }

  lemma {:induction false} PrefixedName(name: string)
    requires IsName(name)
    ensures IsName("tmp_" + name)
  {
    assert IsName("tmp_");
  }

  lemma {:induction false} FlattenedIsNamed(m: Member)
    requires IsName(m.name)
    ensures IsName(Flattened(m).name) && Flattened(m).name == ColumnName(m) && !Flattened(m).ty.Address?
  {
    assert IsWordChar('_') && IsWordChar('r') && IsWordChar('v');
  }

  lemma {:induction false} TargetIsLegible(m: Member)
    requires IsName(m.name)
    ensures WellSpaced(TargetPieces(m)) && Tokens(TargetPieces(m)) == TargetTokens(TargetOf(m))
    ensures Render(TargetPieces(m)) + "," == Schema.LoadText(Flattened(m), true)
  {
    FlattenedIsNamed(m);
    if m.ty.Boolean? {
      PrefixedName(m.name);
      Two(S('@'), W("tmp_" + m.name));
      assert "@" + "tmp_" == "@tmp_";
      Reassociate("@", "tmp_", m.name);
    } else {
      One(W(ColumnName(m)));
      assert "" + ColumnName(m) == ColumnName(m);
    }
  }

  lemma {:induction false} TargetChunksRead(members: seq<Member>)
    requires AllNamed(members)
    ensures AllLegible(TargetChunks(members))
    ensures TokensOfEach(TargetChunks(members)) == TokensOfTargets(TargetsOf(members))
    ensures Terminated(TargetChunks(members)) == LoadsText(members, true)
  {
    if members != [] {
      TargetIsLegible(members[0]);
      TargetChunksRead(members[1..]);
    }
  }

  lemma {:induction false} ParseTargetBack(t: Target, rest: seq<Token>)
    ensures ParseTarget(TargetTokens(t) + rest) == Some((t, rest))
  {
    var ts := TargetTokens(t) + rest;
    if t.Variable? {
      assert ts[1..] == [Word(t.name)] + rest && ts[1..][1..] == rest;
    } else {
      assert ts[1..] == rest;
    }
  }

  lemma {:induction false} ParseTargetsBack(targets: seq<Target>, rest: seq<Token>)
    requires targets != [] && rest != [] && rest[0] == Sign(')')
    ensures ParseTargets(SeparatedTokens(TokensOfTargets(targets)) + rest) == Some((targets, rest))
  {
    var chunks := TokensOfTargets(targets);
    if |targets| == 1 {
      ParseTargetBack(targets[0], rest);
      assert targets == [targets[0]];
    } else {
      var tail := SeparatedTokens(chunks[1..]) + rest;
      assert ParseTargets(tail) == Some((targets[1..], rest)) by {
        assert chunks[1..] == TokensOfTargets(targets[1..]);
        ParseTargetsBack(targets[1..], rest);
      }
      assert SeparatedTokens(chunks) + rest == chunks[0] + ([Sign(',')] + tail) by {
        TokensReassociate(chunks[0], [Sign(',')], SeparatedTokens(chunks[1..]), rest);
      }
      ParseTargetBack(targets[0], [Sign(',')] + tail);
      assert ([Sign(',')] + tail)[1..] == tail;
      assert targets == [targets[0]] + targets[1..];
    }
  }

  // ----------------------------------------------------------- assignments

  function AssignmentPieces(name: string): seq<Piece> {
    [Gap, W(name), S('='), Gap]
    + ([W("CAST"), S('('), S('@')] + ([W("tmp_" + name), Gap] + [W("AS"), Gap, W("UNSIGNED"), S(')')]))
  }

  function AssignmentTokens(a: Assignment): seq<Token> {
    [Word(a.column), Sign('='), Word("CAST"), Sign('('), Sign('@'), Word(a.variable),
     Word("AS"), Word("UNSIGNED"), Sign(')')]
  }

  function AssignmentChunks(members: seq<Member>): seq<seq<Piece>> {
    if members == [] then []
    else (if members[0].ty.Boolean? then [AssignmentPieces(members[0].name)] else []) + AssignmentChunks(members[1..])
  }

  function TokensOfAssignments(assignments: seq<Assignment>): (chunks: seq<seq<Token>>)
    ensures |chunks| == |assignments|
  {
    if assignments == [] then [] else [AssignmentTokens(assignments[0])] + TokensOfAssignments(assignments[1..])
  }

  lemma {:induction false} AsUnsignedIsLegible()
    ensures var ps := [W("AS"), Gap, W("UNSIGNED"), S(')')];
      WellSpaced(ps) && Tokens(ps) == [Word("AS"), Word("UNSIGNED"), Sign(')')] && Render(ps) == "AS UNSIGNED)"
  {
    Four(W("AS"), Gap, W("UNSIGNED"), S(')'));
    assert [Word("AS")] + ([] + ([Word("UNSIGNED")] + [Sign(')')])) == [Word("AS"), Word("UNSIGNED"), Sign(')')];
    assert "AS" + (" " + ("UNSIGNED" + ")")) == "AS UNSIGNED)";
  }

  lemma {:induction false} CastOpenIsLegible()
    ensures var ps := [W("CAST"), S('('), S('@')];
      WellSpaced(ps) && Tokens(ps) == [Word("CAST"), Sign('('), Sign('@')] && Render(ps) == "CAST(@"
  {
    Three(W("CAST"), S('('), S('@'));
    assert [Word("CAST")] + ([Sign('(')] + [Sign('@')]) == [Word("CAST"), Sign('('), Sign('@')];
    assert "CAST" + ("(" + "@") == "CAST(@";
  }

  lemma {:induction false} VariableIsText(variable: string)
    ensures (variable + " ") + "AS UNSIGNED)" == variable + " AS UNSIGNED)"
  {
    Reassociate(variable, " ", "AS UNSIGNED)");
    assert " " + "AS UNSIGNED)" == " AS UNSIGNED)";
  }

  lemma {:induction false} CastIsLegible(variable: string)
    requires IsName(variable)
    ensures var ps := [W("CAST"), S('('), S('@')] + ([W(variable), Gap] + [W("AS"), Gap, W("UNSIGNED"), S(')')]);
      && WellSpaced(ps)
      && Tokens(ps) == [Word("CAST"), Sign('('), Sign('@'), Word(variable), Word("AS"), Word("UNSIGNED"), Sign(')')]
      && Render(ps) == "CAST(@" + (variable + " AS UNSIGNED)")
  {
    AsUnsignedIsLegible();
    Two(W(variable), Gap);
    Append([W(variable), Gap], [W("AS"), Gap, W("UNSIGNED"), S(')')]);
    CastOpenIsLegible();
    Append([W("CAST"), S('('), S('@')], [W(variable), Gap] + [W("AS"), Gap, W("UNSIGNED"), S(')')]);
    VariableIsText(variable);
  }

  lemma {:induction false} AssignmentIsText(name: string)
    ensures (" " + (name + ("=" + " "))) + ("CAST(@" + ("tmp_" + name + " AS UNSIGNED)")) == " " + AssignmentText(name)
  {
    assert ("=" + " ") + ("CAST(@" + "tmp_") == "= CAST(@tmp_";
    assert (" " + (name + ("=" + " "))) + ("CAST(@" + ("tmp_" + name + " AS UNSIGNED)"))
        == " " + (name + (("=" + " ") + ("CAST(@" + "tmp_")) + name + " AS UNSIGNED)");
  }

  lemma {:induction false} AssignmentIsLegible(name: string)
    requires IsName(name)
    ensures WellSpaced(AssignmentPieces(name))
    ensures Tokens(AssignmentPieces(name)) == AssignmentTokens(Assignment(name, "tmp_" + name))
    ensures Render(AssignmentPieces(name)) == " " + AssignmentText(name)
  {
    var cast := [W("CAST"), S('('), S('@')] + ([W("tmp_" + name), Gap] + [W("AS"), Gap, W("UNSIGNED"), S(')')]);
    PrefixedName(name);
    CastIsLegible("tmp_" + name);
    Four(Gap, W(name), S('='), Gap);
    assert Tokens([Gap, W(name), S('='), Gap]) == [Word(name), Sign('=')];
    Append([Gap, W(name), S('='), Gap], cast);
    AssignmentIsText(name);
  }

  /** Each further assignment with its comma in front. */
  function Preceded(chunks: seq<seq<Piece>>): string {
    if chunks == [] then "" else "," + Render(chunks[0]) + Preceded(chunks[1..])
  }

  lemma {:induction false} SeparatedIsPreceded(chunks: seq<seq<Piece>>)
    requires chunks != [] && AllLegible(chunks)
    ensures Render(Separated(chunks)) == Render(chunks[0]) + Preceded(chunks[1..])
  {
    if |chunks| == 1 {
      assert chunks[1..] == [];
      assert Render(chunks[0]) + "" == Render(chunks[0]);
    } else {
      var rest := chunks[1..];
      SeparatedIsLegible(rest);
      SeparatedIsPreceded(rest);
      One(S(','));
      Append([S(',')], Separated(rest));
      Append(chunks[0], [S(',')] + Separated(rest));
      Reassociate(",", Render(rest[0]), Preceded(rest[1..]));
    }
  }

  lemma {:induction false} AssignmentChunksRead(members: seq<Member>)
    requires AllNamed(members)
    ensures AllLegible(AssignmentChunks(members))
    ensures TokensOfEach(AssignmentChunks(members)) == TokensOfAssignments(AssignmentsOf(members))
  {
    if members != [] {
      AssignmentChunksRead(members[1..]);
      if members[0].ty.Boolean? {
        AssignmentIsLegible(members[0].name);
        assert AssignmentChunks(members)[1..] == AssignmentChunks(members[1..]);
      } else {
        assert AssignmentChunks(members) == AssignmentChunks(members[1..]);
        assert AssignmentsOf(members) == AssignmentsOf(members[1..]);
      }
    }
  }

  /** A clause that has begun goes on with a comma. */
  lemma {:induction false} ClauseGoesOn(clause: string, members: seq<Member>)
    requires clause != "" && AllNamed(members)
    ensures SetClauses(clause, members, true) == clause + Preceded(AssignmentChunks(members))
    decreases |members|
  {
    if members == [] {
      assert clause + "" == clause;
    } else {
      var m := members[0];
      FlattenedIsNamed(m);
      var next := SetClause(clause, Flattened(m), true);
      ClauseGoesOn(next, members[1..]);
      if m.ty.Boolean? {
        AssignmentIsLegible(m.name);
        assert AssignmentChunks(members)[1..] == AssignmentChunks(members[1..]);
        assert "," + " " == ", ";
        Reassociate(",", " ", AssignmentText(m.name));
        Reassociate(clause, ", ", AssignmentText(m.name));
        Reassociate(clause, "," + (" " + AssignmentText(m.name)), Preceded(AssignmentChunks(members[1..])));
      } else {
        assert AssignmentChunks(members) == AssignmentChunks(members[1..]);
      }
    }
  }

  /** The clause that the pass over the members grows: empty without a `bool`, else SET and one assignment for each. */
  lemma {:induction false} ClauseIsText(members: seq<Member>)
    requires AllNamed(members)
    ensures AllLegible(AssignmentChunks(members))
    ensures SetClauses("", members, true)
         == if AssignmentChunks(members) == [] then "" else "SET" + Render(Separated(AssignmentChunks(members)))
    decreases |members|
  {
    AssignmentChunksRead(members);
    if members != [] {
      var m := members[0];
      FlattenedIsNamed(m);
      if m.ty.Boolean? {
        var chunks := AssignmentChunks(members);
        AssignmentIsLegible(m.name);
        assert chunks[1..] == AssignmentChunks(members[1..]);
        ClauseGoesOn("SET " + AssignmentText(m.name), members[1..]);
        SeparatedIsPreceded(chunks);
        assert "SET" + " " == "SET ";
        Reassociate("SET", " ", AssignmentText(m.name));
        Reassociate("SET", " " + AssignmentText(m.name), Preceded(chunks[1..]));
      } else {
        assert AssignmentChunks(members) == AssignmentChunks(members[1..]);
        ClauseIsText(members[1..]);
      }
    }
  }

  lemma {:induction false} ParseAssignmentBack(a: Assignment, rest: seq<Token>)
    ensures ParseAssignment(AssignmentTokens(a) + rest) == Some((a, rest))
  {
    var close := [Word("AS"), Word("UNSIGNED"), Sign(')')];
    var open := [Sign('='), Word("CAST"), Sign('('), Sign('@')];
    var ts := AssignmentTokens(a) + rest;
    assert ts[1..] == open + ([Word(a.variable)] + (close + rest));
    assert (open + ([Word(a.variable)] + (close + rest)))[4..] == [Word(a.variable)] + (close + rest);
    assert ([Word(a.variable)] + (close + rest))[1..] == close + rest;
    assert (close + rest)[3..] == rest;
  }

  lemma {:induction false} ParseAssignmentsGoOn(
      a: Assignment, tail: seq<Token>, assignments: seq<Assignment>, rest: seq<Token>)
    requires ParseAssignments(tail) == Some((assignments, rest))
    ensures ParseAssignments(AssignmentTokens(a) + ([Sign(',')] + tail)) == Some(([a] + assignments, rest))
  {
    ParseAssignmentBack(a, [Sign(',')] + tail);
    assert ([Sign(',')] + tail)[1..] == tail;
  }

  lemma {:induction false} ParseAssignmentsBack(assignments: seq<Assignment>, rest: seq<Token>)
    requires assignments != [] && rest != [] && rest[0] == Sign(';')
    ensures ParseAssignments(SeparatedTokens(TokensOfAssignments(assignments)) + rest) == Some((assignments, rest))
  {
    var chunks := TokensOfAssignments(assignments);
    if |assignments| == 1 {
      ParseAssignmentBack(assignments[0], rest);
      assert assignments == [assignments[0]];
    } else {
      var tail := SeparatedTokens(chunks[1..]) + rest;
      assert ParseAssignments(tail) == Some((assignments[1..], rest)) by {
        assert chunks[1..] == TokensOfAssignments(assignments[1..]);
        ParseAssignmentsBack(assignments[1..], rest);
      }
      assert SeparatedTokens(chunks) + rest == chunks[0] + ([Sign(',')] + tail) by {
        TokensReassociate(chunks[0], [Sign(',')], SeparatedTokens(chunks[1..]), rest);
      }
      assert assignments == [assignments[0]] + assignments[1..];
      ParseAssignmentsGoOn(assignments[0], tail, assignments[1..], rest);
    }
  }

  // ------------------------------------------------------------- statement

  /** `Ar.LoadClause.pop_back();` */
  function LoadList(members: seq<Member>): string {
    var loadClause := " (" + LoadsText(members, true);
    loadClause[..|loadClause| - 1]
  }

  /** The end clause that `CreateTable` hands to `LoadTable`. */
  function EndClause(members: seq<Member>): string {
    LoadList(members) + ") " + SetClauses("", members, true)
  }

  /** The text that `LoadTable` builds. */
  function LoadCommand(directory: string, name: string, end: string): string {
    "load data local infile '" + directory + name + "_values.txt' into table " + name
    + (" fields terminated by ','" + " optionally enclosed by '\"'" + " lines terminated by '\\n'") + end + ";"
  }

  function SetPieces(members: seq<Member>): seq<Piece>
    requires AllNamed(members)
  {
    if AssignmentChunks(members) == [] then [] else [W("SET")] + Separated(AssignmentChunks(members))
  }

  function SetTokens(members: seq<Member>): seq<Token> {
    if AssignmentsOf(members) == [] then []
    else [Word("SET")] + SeparatedTokens(TokensOfAssignments(AssignmentsOf(members)))
  }

  lemma {:induction false} ChunksMatchAssignments(members: seq<Member>)
    requires AllNamed(members)
    ensures |AssignmentChunks(members)| == |AssignmentsOf(members)|
    ensures forall i :: 0 <= i < |AssignmentChunks(members)| ==>
      AssignmentChunks(members)[i] != [] && AssignmentChunks(members)[i][0] == Gap
  {
    if members != [] {
      ChunksMatchAssignments(members[1..]);
    }
  }

  lemma {:induction false} SetIsLegible(members: seq<Member>)
    requires AllNamed(members)
    ensures WellSpaced(SetPieces(members)) && Tokens(SetPieces(members)) == SetTokens(members)
    ensures Render(SetPieces(members)) == SetClauses("", members, true)
  {
    ClauseIsText(members);
    AssignmentChunksRead(members);
    ChunksMatchAssignments(members);
    var chunks := AssignmentChunks(members);
    if chunks != [] {
      SeparatedIsLegible(chunks);
      One(W("SET"));
      Append([W("SET")], Separated(chunks));
    }
  }

  /** A clause of the file format: three keywords and a literal. */
  function FormatPieces(words: seq<string>, raw: string): seq<Piece> {
    Spaced(words) + [Gap, Q(raw)]
  }

  lemma {:induction false} FormatIsLegible(a: string, b: string, c: string, raw: string, text: string)
    requires IsName(a) && IsName(b) && IsName(c) && Decoded(raw) == Some(text)
    ensures var ps := FormatPieces([a, b, c], raw);
      && ps[0] == Gap && WellSpaced(ps) && Tokens(ps) == Keywords([a, b, c]) + [Quoted(text)]
      && Render(ps) == " " + a + (" " + b + (" " + c + "")) + (" " + ("'" + raw + "'"))
  {
    ThreeWords(a, b, c);
    SpacedPieces([a, b, c]);
    Two(Gap, Q(raw));
    Append(Spaced([a, b, c]), [Gap, Q(raw)]);
  }

  lemma {:induction false} ThreeWords(a: string, b: string, c: string)
    requires IsName(a) && IsName(b) && IsName(c)
    ensures AllNames([a, b, c]) && SpacedText([a, b, c]) == " " + a + (" " + b + (" " + c + ""))
  {
    assert [a, b, c][1..] == [b, c] && [b, c][1..] == [c] && [c][1..] == [];
    assert AllNames([c]) && AllNames([b, c]);
    assert SpacedText([c]) == " " + c + "";
    assert SpacedText([b, c]) == " " + b + SpacedText([c]);
  }

  lemma {:induction false} DecodesChar(c: char)
    requires c != '\\' && c != '\''
    ensures Decoded([c]) == Some([c])
  {
    assert ReadString("'") == Some(("", ""));
    assert ([c] + "'")[1..] == "'";
    assert ReadString([c] + "'") == Some(([c] + "", ""));
    assert [c] + "" == [c];
  }

  lemma {:induction false} DecodesNewline()
    ensures Decoded("\\n") == Some("\n")
  {
    assert ReadString("'") == Some(("", ""));
    assert ("\\n" + "'")[2..] == "'";
    assert ReadString("\\n" + "'") == Some((['\n'] + "", ""));
    assert ['\n'] + "" == "\n";
  }

  lemma {:induction false} FieldsText()
    ensures " " + "fields" + (" " + "terminated" + (" " + "by" + "")) + (" " + ("'" + "," + "'"))
         == " fields terminated by ','"
  {
  }

  lemma {:induction false} EnclosedText()
    ensures " " + "optionally" + (" " + "enclosed" + (" " + "by" + "")) + (" " + ("'" + "\"" + "'"))
         == " optionally enclosed by '\"'"
  {
  }

  lemma {:induction false} LinesText()
    ensures " " + "lines" + (" " + "terminated" + (" " + "by" + "")) + (" " + ("'" + "\\n" + "'"))
         == " lines terminated by '\\n'"
  {
  }

  lemma {:induction false} FieldsIsLegible()
    ensures var ps := FormatPieces(["fields", "terminated", "by"], ",");
      && ps[0] == Gap && WellSpaced(ps) && Tokens(ps) == Keywords(["fields", "terminated", "by"]) + [Quoted(",")]
      && Render(ps) == " fields terminated by ','"
  {
    DecodesChar(',');
    FormatIsLegible("fields", "terminated", "by", ",", ",");
    FieldsText();
  }

  lemma {:induction false} EnclosedIsLegible()
    ensures var ps := FormatPieces(["optionally", "enclosed", "by"], "\"");
      && ps[0] == Gap && WellSpaced(ps) && Tokens(ps) == Keywords(["optionally", "enclosed", "by"]) + [Quoted("\"")]
      && Render(ps) == " optionally enclosed by '\"'"
  {
    DecodesChar('"');
    FormatIsLegible("optionally", "enclosed", "by", "\"", "\"");
    EnclosedText();
  }

  lemma {:induction false} LinesIsLegible()
    ensures var ps := FormatPieces(["lines", "terminated", "by"], "\\n");
      && ps[0] == Gap && WellSpaced(ps) && Tokens(ps) == Keywords(["lines", "terminated", "by"]) + [Quoted("\n")]
      && Render(ps) == " lines terminated by '\\n'"
  {
    DecodesNewline();
    FormatIsLegible("lines", "terminated", "by", "\\n", "\n");
    LinesText();
  }

  function DialectPieces(): seq<Piece> {
    FormatPieces(["fields", "terminated", "by"], ",")
    + (FormatPieces(["optionally", "enclosed", "by"], "\"") + FormatPieces(["lines", "terminated", "by"], "\\n"))
  }

  function DialectTokens(): seq<Token> {
    (Keywords(["fields", "terminated", "by"]) + [Quoted(",")])
    + ((Keywords(["optionally", "enclosed", "by"]) + [Quoted("\"")])
       + (Keywords(["lines", "terminated", "by"]) + [Quoted("\n")]))
  }

  lemma {:induction false} DialectIsLegible()
    ensures var ps := DialectPieces();
      && ps[0] == Gap && WellSpaced(ps) && Tokens(ps) == DialectTokens()
      && Render(ps) == " fields terminated by ','" + " optionally enclosed by '\"'" + " lines terminated by '\\n'"
  {
    FieldsIsLegible();
    EnclosedIsLegible();
    LinesIsLegible();
    var enclosed := FormatPieces(["optionally", "enclosed", "by"], "\"");
    var lines := FormatPieces(["lines", "terminated", "by"], "\\n");
    Append(enclosed, lines);
    Append(FormatPieces(["fields", "terminated", "by"], ","), enclosed + lines);
    Reassociate(" fields terminated by ','", " optionally enclosed by '\"'", " lines terminated by '\\n'");
  }

  // -------------------------------------------- the parts of the command

  function InfilePieces(raw: string): seq<Piece> {
    [W("load"), Gap, W("data"), Gap] + ([W("local"), Gap, W("infile"), Gap] + [Q(raw)])
  }

  function InfileTokens(path: string): seq<Token> {
    [Word("load"), Word("data"), Word("local"), Word("infile"), Quoted(path)]
  }

  lemma {:induction false} LoadDataIsLegible()
    ensures var ps := [W("load"), Gap, W("data"), Gap];
      WellSpaced(ps) && Tokens(ps) == [Word("load"), Word("data")] && Render(ps) == "load data "
  {
    Four(W("load"), Gap, W("data"), Gap);
    assert [Word("load")] + ([] + ([Word("data")] + [])) == [Word("load"), Word("data")];
    assert "load" + (" " + ("data" + " ")) == "load data ";
  }

  lemma {:induction false} LocalInfileIsLegible()
    ensures var ps := [W("local"), Gap, W("infile"), Gap];
      WellSpaced(ps) && Tokens(ps) == [Word("local"), Word("infile")] && Render(ps) == "local infile "
  {
    Four(W("local"), Gap, W("infile"), Gap);
    assert [Word("local")] + ([] + ([Word("infile")] + [])) == [Word("local"), Word("infile")];
    assert "local" + (" " + ("infile" + " ")) == "local infile ";
  }

  lemma {:induction false} InfileIsText(raw: string)
    ensures "load data " + ("local infile " + ("'" + raw + "'")) == "load data local infile '" + raw + "'"
  {
    assert "load data " + ("local infile " + "'") == "load data local infile '";
  }

  lemma {:induction false} InfileIsLegible(raw: string, path: string)
    requires Decoded(raw) == Some(path)
    ensures WellSpaced(InfilePieces(raw)) && Tokens(InfilePieces(raw)) == InfileTokens(path)
    ensures Render(InfilePieces(raw)) == "load data local infile '" + raw + "'"
  {
    LoadDataIsLegible();
    LocalInfileIsLegible();
    One(Q(raw));
    Append([W("local"), Gap, W("infile"), Gap], [Q(raw)]);
    Append([W("load"), Gap, W("data"), Gap], [W("local"), Gap, W("infile"), Gap] + [Q(raw)]);
    InfileIsText(raw);
  }

  function IntoPieces(name: string): seq<Piece> {
    [Gap, W("into"), Gap] + [W("table"), Gap, W(name)]
  }

  lemma {:induction false} IntoIsText(name: string)
    ensures (" " + ("into" + " ")) + ("table" + (" " + name)) == " into table " + name
  {
    Reassociate("table", " ", name);
    Reassociate(" " + ("into" + " "), "table" + " ", name);
    assert (" " + ("into" + " ")) + ("table" + " ") == " into table ";
  }

  lemma {:induction false} IntoIsLegible(name: string)
    requires IsName(name)
    ensures WellSpaced(IntoPieces(name)) && Tokens(IntoPieces(name)) == [Word("into"), Word("table"), Word(name)]
    ensures Render(IntoPieces(name)) == " into table " + name
  {
    WordInto();
    WordTable(name);
    Append([Gap, W("into"), Gap], [W("table"), Gap, W(name)]);
    IntoIsText(name);
  }

  lemma {:induction false} WordInto()
    ensures var ps := [Gap, W("into"), Gap];
      WellSpaced(ps) && Tokens(ps) == [Word("into")] && Render(ps) == " " + ("into" + " ")
  {
    Three(Gap, W("into"), Gap);
    assert [] + ([Word("into")] + []) == [Word("into")];
  }

  lemma {:induction false} WordTable(name: string)
    requires IsName(name)
    ensures var ps := [W("table"), Gap, W(name)];
      WellSpaced(ps) && Tokens(ps) == [Word("table"), Word(name)] && Render(ps) == "table" + (" " + name)
  {
    Three(W("table"), Gap, W(name));
    assert [Word("table")] + ([] + [Word(name)]) == [Word("table"), Word(name)];
  }

  function ListPieces(members: seq<Member>): seq<Piece>
    requires members != []
  {
    [Gap, S('(')] + (Separated(TargetChunks(members)) + [S(')')])
  }

  function ListTokens(members: seq<Member>): seq<Token>
    requires members != []
  {
    [Sign('(')] + (SeparatedTokens(TokensOfTargets(TargetsOf(members))) + [Sign(')')])
  }

  lemma {:induction false} ListIsText(list: string, loads: string)
    requires list + "," == loads
    ensures " (" + list == (" (" + loads)[..|" (" + loads| - 1]
  {
    Reassociate(" (", list, ",");
    assert (" (" + list + ",")[..|" (" + list|] == " (" + list;
  }

  lemma {:induction false} ListIsEnclosed(list: seq<Piece>)
    requires WellSpaced(list)
    ensures var ps := [Gap, S('(')] + (list + [S(')')]);
      WellSpaced(ps) && Tokens(ps) == [Sign('(')] + (Tokens(list) + [Sign(')')])
      && Render(ps) == " (" + (Render(list) + ")")
  {
    One(S(')'));
    Append(list, [S(')')]);
    Two(Gap, S('('));
    assert [] + [Sign('(')] == [Sign('(')] && " " + "(" == " (";
    Append([Gap, S('(')], list + [S(')')]);
  }

  lemma {:induction false} ListIsLegible(members: seq<Member>)
    requires members != [] && AllNamed(members)
    ensures WellSpaced(ListPieces(members)) && Tokens(ListPieces(members)) == ListTokens(members)
    ensures Render(ListPieces(members)) == LoadList(members) + ")"
  {
    var list := Separated(TargetChunks(members));
    TargetChunksRead(members);
    SeparatedIsLegible(TargetChunks(members));
    ListIsEnclosed(list);
    ListIsText(Render(list), LoadsText(members, true));
    Reassociate(" (", Render(list), ")");
  }

  function EndPieces(members: seq<Member>): seq<Piece>
    requires AllNamed(members)
  {
    [Gap] + (SetPieces(members) + [S(';')])
  }

  lemma {:induction false} EndIsLegible(members: seq<Member>)
    requires AllNamed(members)
    ensures WellSpaced(EndPieces(members)) && Tokens(EndPieces(members)) == SetTokens(members) + [Sign(';')]
    ensures Render(EndPieces(members)) == " " + (SetClauses("", members, true) + ";")
  {
    SetIsLegible(members);
    One(S(';'));
    Append(SetPieces(members), [S(';')]);
    One(Gap);
    Append([Gap], SetPieces(members) + [S(';')]);
    assert [] + (SetTokens(members) + [Sign(';')]) == SetTokens(members) + [Sign(';')];
  }

  function ClausesPieces(members: seq<Member>): seq<Piece>
    requires members != [] && AllNamed(members)
  {
    DialectPieces() + (ListPieces(members) + EndPieces(members))
  }

  function ClausesTokens(members: seq<Member>): seq<Token>
    requires members != []
  {
    DialectTokens() + (ListTokens(members) + (SetTokens(members) + [Sign(';')]))
  }

  lemma {:induction false} EndIsText(list: string, clause: string)
    ensures (list + ")") + (" " + (clause + ";")) == list + ") " + clause + ";"
  {
    Reassociate(list, ")", " ");
    assert ")" + " " == ") ";
    Reassociate(list + ")", " ", clause + ";");
    Reassociate(list + ") ", clause, ";");
  }

  lemma {:induction false} ClausesAreLegible(members: seq<Member>)
    requires members != [] && AllNamed(members)
    ensures WellSpaced(ClausesPieces(members)) && Tokens(ClausesPieces(members)) == ClausesTokens(members)
    ensures ClausesPieces(members)[0] == Gap
    ensures Render(ClausesPieces(members))
      == (" fields terminated by ','" + " optionally enclosed by '\"'" + " lines terminated by '\\n'")
         + (EndClause(members) + ";")
  {
    DialectIsLegible();
    ListIsLegible(members);
    EndIsLegible(members);
    Append(ListPieces(members), EndPieces(members));
    Append(DialectPieces(), ListPieces(members) + EndPieces(members));
    EndIsText(LoadList(members), SetClauses("", members, true));
  }

  lemma {:induction false} LoadIsText(directory: string, name: string, dialect: string, end: string)
    ensures ("load data local infile '" + (directory + name + "_values.txt") + "'")
            + ((" into table " + name) + (dialect + (end + ";")))
         == "load data local infile '" + directory + name + "_values.txt' into table " + name + dialect + end + ";"
  {
    assert "_values.txt" + "'" + " into table " == "_values.txt' into table ";
    assert ("load data local infile '" + (directory + name + "_values.txt") + "'")
           + ((" into table " + name) + (dialect + (end + ";")))
        == "load data local infile '" + directory + name + ("_values.txt" + "'" + " into table ") + name
           + dialect + end + ";";
  }

  /** Text and tokens of the whole command. */
  lemma {:induction false} LexLoad(directory: string, name: string, path: string, members: seq<Member>)
    requires members != [] && AllNamed(members) && IsName(name)
    requires Decoded(directory + name + "_values.txt") == Some(path)
    ensures Lex(LoadCommand(directory, name, EndClause(members)))
         == InfileTokens(path) + ([Word("into"), Word("table"), Word(name)] + ClausesTokens(members))
  {
    var infile, into, tail := InfilePieces(directory + name + "_values.txt"), IntoPieces(name), ClausesPieces(members);
    InfileIsLegible(directory + name + "_values.txt", path);
    IntoIsLegible(name);
    ClausesAreLegible(members);
    Append(into, tail);
    Append(infile, into + tail);
    LexRender(infile + (into + tail));
    LoadIsText(directory, name,
               " fields terminated by ','" + " optionally enclosed by '\"'" + " lines terminated by '\\n'",
               EndClause(members));
  }

  // --------------------------------------------------------------- parsing

  lemma {:induction false} LoadKeywords()
    ensures Keywords(["DROP", "TABLE", "IF", "EXISTS"])[0] == Word("DROP")
    ensures Keywords(["CREATE", "TABLE"])[0] == Word("CREATE")
    ensures Keywords(["into", "table"]) == [Word("into"), Word("table")]
    ensures Keywords(["load", "data", "local", "infile"])
         == [Word("load"), Word("data"), Word("local"), Word("infile")]
  {
    assert ["into", "table"][1..] == ["table"] && ["table"][1..] == [];
    assert Keywords(["table"]) == [Word("table")];
    assert ["infile"][1..] == [];
    assert ["local", "infile"][1..] == ["infile"];
    assert ["data", "local", "infile"][1..] == ["local", "infile"];
    assert ["load", "data", "local", "infile"][1..] == ["data", "local", "infile"];
    assert Keywords(["infile"]) == [Word("infile")];
    assert Keywords(["local", "infile"]) == [Word("local")] + Keywords(["infile"]);
    assert Keywords(["data", "local", "infile"]) == [Word("data")] + Keywords(["local", "infile"]);
  }

  lemma {:induction false} EatThrough(expected: seq<Token>, rest: seq<Token>)
    ensures Eat(expected, expected + rest) == Some(rest)
  {
    assert (expected + rest)[|expected|..] == rest;
  }

  /** Three keywords and a literal, wherever they stand. */
  lemma {:induction false} EatFormat(words: seq<string>, text: string, rest: seq<Token>)
    ensures Eat(Keywords(words), (Keywords(words) + [Quoted(text)]) + rest) == Some([Quoted(text)] + rest)
    ensures EatQuoted([Quoted(text)] + rest) == Some((text, rest))
  {
    assert (Keywords(words) + [Quoted(text)]) + rest == Keywords(words) + ([Quoted(text)] + rest);
    EatThrough(Keywords(words), [Quoted(text)] + rest);
    assert ([Quoted(text)] + rest)[1..] == rest;
  }

  /** The SET clause and the end of the command. */
  lemma {:induction false} ParseSetBack(members: seq<Member>)
    ensures ParseSet(SetTokens(members) + [Sign(';')]) == Some((AssignmentsOf(members), [Sign(';')]))
  {
    var assignments := AssignmentsOf(members);
    if assignments == [] {
      assert [] + [Sign(';')] == [Sign(';')];
    } else {
      var list := SeparatedTokens(TokensOfAssignments(assignments));
      ParseAssignmentsBack(assignments, [Sign(';')]);
      assert SetTokens(members) + [Sign(';')] == [Word("SET")] + (list + [Sign(';')]);
      assert ([Word("SET")] + (list + [Sign(';')]))[1..] == list + [Sign(';')];
    }
  }

  /** The load list, from its opening parenthesis. */
  lemma {:induction false} ParseListBack(members: seq<Member>, rest: seq<Token>)
    requires members != []
    ensures var inside := Eat([Sign('(')], ListTokens(members) + rest);
      inside.Some? &&
      ParseTargets(inside.value) == Some((TargetsOf(members), [Sign(')')] + rest)) &&
      Eat([Sign(')')], [Sign(')')] + rest) == Some(rest)
  {
    var list := SeparatedTokens(TokensOfTargets(TargetsOf(members)));
    ParseTargetsBack(TargetsOf(members), [Sign(')')] + rest);
    TokensReassociate([Sign('(')], list, [Sign(')')], rest);
    EatThrough([Sign('(')], list + ([Sign(')')] + rest));
    EatThrough([Sign(')')], rest);
  }

  /** What `LoadTable` asks for. */
  function LoadStatement(path: string, name: string, members: seq<Member>): Statement {
    LoadData(path, name, ",", "\"", "\n", TargetsOf(members), AssignmentsOf(members))
  }

  /** The format clauses and everything behind them. */
  lemma {:induction false} ParseTail(path: string, name: string, members: seq<Member>)
    requires members != []
    ensures ParseFormat(path, name, ClausesTokens(members)) == Some(LoadStatement(path, name, members))
  {
    var end := SetTokens(members) + [Sign(';')];
    var list := ListTokens(members) + end;
    var fields := Keywords(["fields", "terminated", "by"]) + [Quoted(",")];
    var enclosed := Keywords(["optionally", "enclosed", "by"]) + [Quoted("\"")];
    var lines := Keywords(["lines", "terminated", "by"]) + [Quoted("\n")];
    TokensReassociate(fields, enclosed, lines, list);
    EatFormat(["fields", "terminated", "by"], ",", enclosed + (lines + list));
    EatFormat(["optionally", "enclosed", "by"], "\"", lines + list);
    EatFormat(["lines", "terminated", "by"], "\n", list);
    ParseListBack(members, end);
    ParseSetBack(members);
  }

  lemma {:induction false} ParseInto(path: string, name: string, tail: seq<Token>)
    ensures ParseLoad([Quoted(path)] + ([Word("into"), Word("table")] + ([Word(name)] + tail)))
         == ParseFormat(path, name, tail)
  {
    LoadKeywords();
    var into := [Word("into"), Word("table")] + ([Word(name)] + tail);
    assert ([Quoted(path)] + into)[1..] == into;
    EatThrough([Word("into"), Word("table")], [Word(name)] + tail);
    assert ([Word(name)] + tail)[1..] == tail;
  }

  lemma {:induction false} ParseIsLoad(command: string, rest: seq<Token>)
    requires Lex(command) == [Word("load"), Word("data"), Word("local"), Word("infile")] + rest
    ensures Parse(command) == ParseLoad(rest)
  {
    LoadKeywords();
    var ts := Lex(command);
    assert ts[0] == Word("load");
    assert !(Keywords(["DROP", "TABLE", "IF", "EXISTS"]) <= ts) && !(Keywords(["CREATE", "TABLE"]) <= ts);
    assert ts[4..] == rest;
  }

  /**
   The LOAD DATA command reads each field into the column of its member, or into the variable that the SET clause
   converts.
   */
  lemma {:induction false} ParseLoadBack(directory: string, name: string, path: string, members: seq<Member>)
    requires members != [] && AllNamed(members) && IsName(name)
    requires Decoded(directory + name + "_values.txt") == Some(path)
    ensures Parse(LoadCommand(directory, name, EndClause(members))) == Some(LoadStatement(path, name, members))
  {
    LexLoad(directory, name, path, members);
    ParseLoadTokens(LoadCommand(directory, name, EndClause(members)), name, path, members);
  }

  lemma {:induction false} ParseLoadTokens(command: string, name: string, path: string, members: seq<Member>)
    requires members != []
    requires Lex(command) == InfileTokens(path) + ([Word("into"), Word("table"), Word(name)] + ClausesTokens(members))
    ensures Parse(command) == Some(LoadStatement(path, name, members))
  {
    var tail := ClausesTokens(members);
    var into := [Word("into"), Word("table")] + ([Word(name)] + tail);
    InfileThenInto(path, name, tail);
    ParseIsLoad(command, [Quoted(path)] + into);
    ParseInto(path, name, tail);
    ParseTail(path, name, members);
  }

  lemma {:induction false} InfileThenInto(path: string, name: string, tail: seq<Token>)
    ensures InfileTokens(path) + ([Word("into"), Word("table"), Word(name)] + tail)
         == [Word("load"), Word("data"), Word("local"), Word("infile")]
            + ([Quoted(path)] + ([Word("into"), Word("table")] + ([Word(name)] + tail)))
  {
  }

  // ------------------------------------------------------------ DROP TABLE

  function DropCommand(name: string): string {
    "DROP TABLE IF EXISTS " + name + ";"
  }

  lemma {:induction false} DropTableIsLegible()
    ensures var ps := [W("DROP"), Gap, W("TABLE"), Gap];
      WellSpaced(ps) && Tokens(ps) == [Word("DROP"), Word("TABLE")] && Render(ps) == "DROP TABLE "
  {
    Four(W("DROP"), Gap, W("TABLE"), Gap);
    assert [Word("DROP")] + ([] + ([Word("TABLE")] + [])) == [Word("DROP"), Word("TABLE")];
    assert "DROP" + (" " + ("TABLE" + " ")) == "DROP TABLE ";
  }

  lemma {:induction false} IfExistsIsLegible()
    ensures var ps := [W("IF"), Gap, W("EXISTS"), Gap];
      WellSpaced(ps) && Tokens(ps) == [Word("IF"), Word("EXISTS")] && Render(ps) == "IF EXISTS "
  {
    Four(W("IF"), Gap, W("EXISTS"), Gap);
    assert [Word("IF")] + ([] + ([Word("EXISTS")] + [])) == [Word("IF"), Word("EXISTS")];
    assert "IF" + (" " + ("EXISTS" + " ")) == "IF EXISTS ";
  }

  lemma {:induction false} DropIsText(name: string)
    ensures "DROP TABLE " + ("IF EXISTS " + (name + ";")) == DropCommand(name)
  {
    assert "DROP TABLE " + "IF EXISTS " == "DROP TABLE IF EXISTS ";
    Reassociate("DROP TABLE ", "IF EXISTS ", name + ";");
    Reassociate("DROP TABLE IF EXISTS ", name, ";");
  }

  lemma {:induction false} DropIsLegible(name: string)
    requires IsName(name)
    ensures Lex(DropCommand(name))
         == [Word("DROP"), Word("TABLE")] + ([Word("IF"), Word("EXISTS")] + ([Word(name)] + [Sign(';')]))
  {
    var a, b := [W("DROP"), Gap, W("TABLE"), Gap], [W("IF"), Gap, W("EXISTS"), Gap];
    DropTableIsLegible();
    IfExistsIsLegible();
    Two(W(name), S(';'));
    Append(b, [W(name), S(';')]);
    Append(a, b + [W(name), S(';')]);
    LexRender(a + (b + [W(name), S(';')]));
    DropIsText(name);
  }

  lemma {:induction false} DropKeywords()
    ensures Keywords(["DROP", "TABLE", "IF", "EXISTS"]) == [Word("DROP"), Word("TABLE"), Word("IF"), Word("EXISTS")]
  {
    assert ["DROP", "TABLE", "IF", "EXISTS"][1..] == ["TABLE", "IF", "EXISTS"];
    assert ["TABLE", "IF", "EXISTS"][1..] == ["IF", "EXISTS"];
    assert ["IF", "EXISTS"][1..] == ["EXISTS"] && ["EXISTS"][1..] == [];
    assert Keywords(["EXISTS"]) == [Word("EXISTS")];
    assert Keywords(["IF", "EXISTS"]) == [Word("IF")] + Keywords(["EXISTS"]);
    assert Keywords(["TABLE", "IF", "EXISTS"]) == [Word("TABLE")] + Keywords(["IF", "EXISTS"]);
  }

  lemma {:induction false} ParseDropBack(name: string)
    requires IsName(name)
    ensures Parse(DropCommand(name)) == Some(DropTable(name))
  {
    DropIsLegible(name);
    DropKeywords();
    var ts := Lex(DropCommand(name));
    assert ts == [Word("DROP"), Word("TABLE"), Word("IF"), Word("EXISTS")] + [Word(name), Sign(';')];
    assert ts[4..] == [Word(name), Sign(';')];
    assert ts[4..][1..] == [Sign(';')];
  }
}
